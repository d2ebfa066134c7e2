/** `deps`, `bundle_libraries`, `bundle_dlopened_sdl3` and `verify_self_contained` of ci/mkmacapp.py. */
module MacBundle {
  import opened Options
  import opened Graph

  // ------------------------------------------------------------------ install names

  /** The system's own libraries, and what is relative to the bundle already. */
  predicate Prefixed(dep: string) {
    "/usr/lib/" <= dep || "/System/" <= dep || "@rpath/" <= dep || "@loader_path/" <= dep || "@executable_path/" <= dep
  }

  /** `name` is what follows the last slash of `path`. */
  predicate Last(path: string, name: string) {
    && '/' !in name && |name| <= |path| && path[|path| - |name|..] == name
    && (|name| < |path| ==> path[|path| - |name| - 1] == '/')
  }

  lemma LastIsOne(path: string, a: string, b: string)
    requires Last(path, a) && Last(path, b)
    ensures a == b
  {
    forall k | |path| - |a| <= k < |path| ensures path[k] != '/' { assert path[k] == a[k - (|path| - |a|)]; }
    forall k | |path| - |b| <= k < |path| ensures path[k] != '/' { assert path[k] == b[k - (|path| - |b|)]; }
  }

  predicate StartsWith(s: string, p: string) {
    |p| <= |s| && s[..|p|] == p
  }

  predicate System(dep: string) {
    StartsWith(dep, "/usr/lib/") || StartsWith(dep, "/System/")
  }

  predicate Relative(dep: string) {
    StartsWith(dep, "@rpath/") || StartsWith(dep, "@loader_path/") || StartsWith(dep, "@executable_path/")
  }

  /** A path on the build machine: what has to be copied in. */
  predicate External(dep: string): (r: bool)
    ensures r <==> !Prefixed(dep)
  {
    !Relative(dep) && !System(dep)
  }

  /** `Path(dep).name`, for a path that does not end in a slash. */
  function Leaf(path: string): (name: string)
    ensures Last(path, name)
  {
    if '/' !in path then path else Leaf(path[1..])
  }

  function Inside(dep: string): (r: string)
    ensures Relative(r)
  {
    assert ("@rpath/" + Leaf(dep))[..7] == "@rpath/";
    "@rpath/" + Leaf(dep)
  }

  /** What `otool -L` shows: a library's own id, then what it loads. `dlopens` is sdl2-compat's SDL3 string. */
  datatype Macho = Macho(id: Option<string>, loads: seq<string>, dlopens: bool)

  function Keep(names: seq<string>, own: string): (r: seq<string>)
    ensures forall n :: n in r <==> n in names && (Leaf(n) != own || !StartsWith(n, "@rpath/"))
  {
    if names == [] then []
    else (if Leaf(names[0]) != own || !StartsWith(names[0], "@rpath/") then [names[0]] else []) + Keep(names[1..], own)
  }

  /** A name of the build machine that `otool -L` shows for the file. */
  ghost predicate Shows(m: Macho, n: string) {
    !Prefixed(n) && (n in m.loads || m.id == Some(n))
  }

  /** `deps(macho)`: the recorded names without the file's own `@rpath` line. */
  function InstallNames(own: string, m: Macho): (r: seq<string>)
    ensures forall n :: n in r <==> (n in m.loads || m.id == Some(n)) && (Leaf(n) != own || !StartsWith(n, "@rpath/"))
  {
    Keep((if m.id.Some? then [m.id.value] else []) + m.loads, own)
  }

  /** Only what has the file's own name behind `@rpath` is passed over, so every name of the build machine is there. */
  lemma NamesShown(own: string, m: Macho, n: string)
    ensures n in InstallNames(own, m) <==> (n in m.loads || m.id == Some(n)) && !("@rpath/" <= n && Last(n, own))
    ensures n in InstallNames(own, m) && External(n) <==> Shows(m, n)
  {
    hide Leaf, Last;
    if Last(n, own) { LastIsOne(n, own, Leaf(n)); }
  }

  /** `install_name_tool -change dep to`. */
  function Change(loads: seq<string>, dep: string, to: string): (r: seq<string>)
    ensures |r| == |loads| && forall i :: 0 <= i < |loads| ==> r[i] == if loads[i] == dep then to else loads[i]
  {
    seq(|loads|, i requires 0 <= i < |loads| => if loads[i] == dep then to else loads[i])
  }

  /** `install_name_tool -id`: a file without an id keeps none. */
  function WithId(m: Macho, leaf: string): Macho {
    m.(id := if m.id.Some? then Some("@rpath/" + leaf) else None)
  }

  /** The loads with every external one repointed. */
  function Repointed(loads: seq<string>): (r: seq<string>)
    ensures |r| == |loads| && forall i :: 0 <= i < |loads| ==> r[i] == if External(loads[i]) then Inside(loads[i]) else loads[i]
  {
    seq(|loads|, i requires 0 <= i < |loads| => if External(loads[i]) then Inside(loads[i]) else loads[i])
  }

  /** The loads with only the first names of `done` repointed. */
  ghost predicate Partly(orig: seq<string>, done: seq<string>, now: seq<string>) {
    && |now| == |orig|
    && forall i :: 0 <= i < |orig| ==> now[i] == if External(orig[i]) && orig[i] in done then Inside(orig[i]) else orig[i]
  }

  lemma PartlyStep(orig: seq<string>, done: seq<string>, now: seq<string>, dep: string)
    requires Partly(orig, done, now) && External(dep)
    ensures Partly(orig, done + [dep], Change(now, dep, Inside(dep)))
  {
  }

  lemma PartlySkip(orig: seq<string>, done: seq<string>, now: seq<string>, dep: string)
    requires Partly(orig, done, now) && !External(dep)
    ensures Partly(orig, done + [dep], now)
  {
  }

  lemma PartlyDone(orig: seq<string>, done: seq<string>, now: seq<string>)
    requires Partly(orig, done, now) && forall n :: n in orig && External(n) ==> n in done
    ensures now == Repointed(orig)
  {
  }

  // ------------------------------------------------------------------ what a bundle needs

  /** The dylib graph of the build machine: a file leads to the external paths it loads. */
  function Links(disk: map<string, Macho>): map<string, set<string>> {
    map p | p in disk :: set n | n in disk[p].loads && External(n)
  }

  /** `q` is loaded, directly or through other libraries, by a file with these loads. */
  ghost predicate Wanted(disk: map<string, Macho>, loads: seq<string>, q: string) {
    exists n :: n in loads && External(n) && Reach(Links(disk), n, q)
  }

  lemma WantedDirect(disk: map<string, Macho>, loads: seq<string>, n: string)
    requires n in loads && External(n)
    ensures Wanted(disk, loads, n)
  {
    ReachRefl(Links(disk), n);
  }

  lemma WantedNext(disk: map<string, Macho>, loads: seq<string>, p: string, n: string)
    requires Wanted(disk, loads, p) && p in disk && n in disk[p].loads && External(n)
    ensures Wanted(disk, loads, n)
  {
    var m :| m in loads && External(m) && Reach(Links(disk), m, p);
    assert n in Succ(Links(disk), p);
    ReachEdge(Links(disk), p, n);
    ReachTrans(Links(disk), m, p, n);
  }

  /** Every leaf a copy could be made under. */
  ghost function LeafNames(disk: map<string, Macho>, loads: seq<string>): set<string> {
    (set n | n in loads :: Leaf(n)) + (set p, n | p in disk && n in disk[p].loads :: Leaf(n))
  }

  /** Wanted by the program, or SDL3, or wanted by SDL3. */
  ghost predicate Needed(disk: map<string, Macho>, loads: seq<string>, q: string) {
    Wanted(disk, loads, q) || exists c :: FirstOn(disk, Candidates(), c) && (q == c || Wanted(disk, disk[c].loads, q))
  }

  const SDL2 := "libSDL2-2.0.0.dylib"
  const SDL3 := "libSDL3.dylib"

  /** Where SDL3 is looked for, in this order. */
  function Candidates(): seq<string> {
    ["/opt/homebrew/opt/sdl3/lib/libSDL3.0.dylib",
     "/usr/local/opt/sdl3/lib/libSDL3.0.dylib",
     "/opt/homebrew/lib/libSDL3.0.dylib"]
  }

  ghost predicate FirstOn(disk: map<string, Macho>, paths: seq<string>, p: string) {
    p in disk && exists i :: 0 <= i < |paths| && paths[i] == p && forall j :: 0 <= j < i ==> paths[j] !in disk
  }

  datatype Sdl3 = NotNeeded | Bundled(path: string) | NoneFound | Unfound(path: string, dep: string)

  // ------------------------------------------------------------------ the bundle, as a value

  datatype Obj = Program | Lib(leaf: string)

  /** The files of the bundle now; `origin` and `source` remember what each was copied from. */
  datatype Files = Files(program: Macho, frameworks: map<string, Macho>, origin: map<Obj, Macho>, source: map<string, string>) {
    predicate Has(o: Obj) {
      o.Program? || o.leaf in frameworks
    }

    function Get(o: Obj): Macho
      requires Has(o)
    {
      match o case Program => program case Lib(leaf) => frameworks[leaf]
    }

    function Put(o: Obj, m: Macho): Files {
      match o case Program => this.(program := m) case Lib(leaf) => this.(frameworks := frameworks[leaf := m])
    }

    /** A library copied in under `leaf`, with its `@rpath` id. */
    ghost function CopyIn(path: string, m: Macho, leaf: string): Files {
      Files(program, frameworks[leaf := WithId(m, leaf)], origin[Lib(leaf) := m], source[leaf := path])
    }

    /** One reference of `o` changed to the library of the same leaf. */
    function RepointIn(o: Obj, dep: string): Files
      requires Has(o)
    {
      Put(o, Get(o).(loads := Change(Get(o).loads, dep, Inside(dep))))
    }

    /** A library that had an id has its own `@rpath` name for one; nothing else of the file but its references changes. */
    ghost predicate Identified(o: Obj)
      requires Has(o) && o in origin
    {
      && Get(o).id == (if o.Lib? && origin[o].id.Some? then Some("@rpath/" + o.leaf) else None)
      && Get(o).dlopens == origin[o].dlopens
    }

    ghost predicate Untouched(o: Obj) {
      Has(o) && o in origin && Identified(o) && Get(o).loads == origin[o].loads
    }

    ghost predicate Present(names: seq<string>) {
      forall n :: n in names && External(n) ==> Leaf(n) in frameworks
    }

    /** Every reference is the original one, or points at a library that is in the bundle. */
    ghost predicate Settled(o: Obj) {
      Has(o) && o in origin && Identified(o) && Get(o).loads == Repointed(origin[o].loads) && Present(origin[o].loads)
    }

    /** The references named in `done` have been dealt with. */
    ghost predicate Halfway(o: Obj, done: seq<string>) {
      Has(o) && o in origin && Identified(o) && Partly(origin[o].loads, done, Get(o).loads) && Present(done)
    }

    /** A library copied in because something with these loads needs it. */
    ghost predicate Copied(disk: map<string, Macho>, loads: seq<string>, l: string) {
      && l in source && source[l] in disk && Leaf(source[l]) == l
      && Lib(l) in origin && origin[Lib(l)] == disk[source[l]]
      && Wanted(disk, loads, source[l])
    }

    ghost predicate Clean() {
      forall o :: Has(o) ==> Settled(o)
    }

    /** The library was copied from a file of the build machine that is needed, and is called what that was called. */
    ghost predicate Sourced(disk: map<string, Macho>, loads: seq<string>, l: string) {
      && l in source && source[l] in disk && Lib(l) in origin && origin[Lib(l)] == disk[source[l]]
      && Needed(disk, loads, source[l]) && (l == SDL3 || Last(source[l], l))
    }

    ghost predicate AllSourced(disk: map<string, Macho>, loads: seq<string>) {
      forall l :: l in frameworks ==> Sourced(disk, loads, l)
    }

    /** The bundled SDL2 is sdl2-compat. */
    predicate NeedsSdl3() {
      SDL2 in frameworks && frameworks[SDL2].dlopens
    }

    /** SDL3 came into `f0` from `path`, with what it wants; no other library of `f0` is another one now. */
    ghost predicate HasSdl3(f0: Files, disk: map<string, Macho>, path: string) {
      && path in disk && SDL3 in frameworks && SDL3 in source && source[SDL3] == path
      && (Program in f0.origin ==> Program in origin && origin[Program] == f0.origin[Program])
      && f0.frameworks.Keys <= frameworks.Keys
      && (forall l :: l in f0.frameworks && l in f0.source && l != SDL3 ==> l in source && source[l] == f0.source[l])
      && forall loads :: f0.AllSourced(disk, loads) && FirstOn(disk, Candidates(), path) ==> AllSourced(disk, loads)
    }

    /** Nothing that was in the bundle before has been replaced. */
    ghost predicate Extends(f0: Files) {
      && f0.frameworks.Keys <= frameworks.Keys
      && (forall o :: f0.Has(o) && o in f0.origin ==> o in origin && origin[o] == f0.origin[o])
      && forall l :: l in f0.frameworks && l in f0.source ==> l in source && source[l] == f0.source[l]
    }
  }

  /** The state of one walk from `start`, which began at `f0`. */
  datatype Walk = Walk(disk: map<string, Macho>, start: Obj, f0: Files) {
    ghost function Loads(): seq<string>
      requires start in f0.origin
    {
      f0.origin[start].loads
    }

    ghost predicate Begun() {
      f0.Has(start) && start in f0.origin
    }

    /** `o` is the start or came in during this walk. */
    ghost predicate Mine(o: Obj) {
      o == start || (o.Lib? && o.leaf !in f0.frameworks)
    }

    ghost predicate Grew(f: Files) {
      && Begun() && f.Extends(f0)
      && forall l :: l in f.frameworks && l !in f0.frameworks ==> f.Copied(disk, Loads(), l)
    }

    /** Between two files: `todo` waits untouched, the others are settled. */
    ghost predicate Between(f: Files, todo: set<Obj>) {
      && Grew(f)
      && (forall o :: o in todo ==> Mine(o) && f.Untouched(o))
      && (forall o :: f.Has(o) && o !in todo ==> f.Settled(o))
    }

    /** In the middle of one file. */
    ghost predicate Within(f: Files, todo: set<Obj>, obj: Obj, done: seq<string>) {
      && Grew(f) && Mine(obj) && obj !in todo && f.Halfway(obj, done)
      && (forall o :: o in todo ==> Mine(o) && f.Untouched(o))
      && (forall o :: f.Has(o) && o !in todo && o != obj ==> f.Settled(o))
    }
  }

  lemma Enter(w: Walk, f: Files, todo: set<Obj>, obj: Obj)
    requires w.Between(f, todo) && obj in todo
    ensures w.Within(f, todo - {obj}, obj, [])
  {
  }

  lemma Leave(w: Walk, f: Files, todo: set<Obj>, obj: Obj, done: seq<string>)
    requires w.Within(f, todo, obj, done) && forall n :: n in f.origin[obj].loads && External(n) ==> n in done
    ensures w.Between(f, todo)
  {
    PartlyDone(f.origin[obj].loads, done, f.Get(obj).loads);
  }

  lemma Skip(w: Walk, f: Files, todo: set<Obj>, obj: Obj, done: seq<string>, dep: string)
    requires w.Within(f, todo, obj, done) && !External(dep)
    ensures w.Within(f, todo, obj, done + [dep])
  {
    PartlySkip(f.origin[obj].loads, done, f.Get(obj).loads, dep);
  }

  /** Whatever a file of this walk loads is wanted, and could only be copied under one of finitely many leaves. */
  lemma DepWanted(w: Walk, f: Files, obj: Obj, dep: string)
    requires w.Grew(f) && w.Mine(obj) && f.Has(obj) && obj in f.origin
    requires dep in f.origin[obj].loads && External(dep)
    ensures Wanted(w.disk, w.Loads(), dep) && Leaf(dep) in LeafNames(w.disk, w.Loads())
  {
    if obj == w.start {
      WantedDirect(w.disk, w.Loads(), dep);
    } else {
      assert f.Copied(w.disk, w.Loads(), obj.leaf);
      WantedNext(w.disk, w.Loads(), f.source[obj.leaf], dep);
    }
  }

  /** A file that was in the bundle stays as it is when another library comes in. */
  lemma CopyKeeps(f: Files, path: string, m: Macho, leaf: string, o: Obj)
    requires leaf !in f.frameworks && f.Has(o)
    ensures var f' := f.CopyIn(path, m, leaf);
      && f'.Has(o) && f'.Get(o) == f.Get(o) && (o in f.origin ==> o in f'.origin && f'.origin[o] == f.origin[o])
      && (f.Untouched(o) ==> f'.Untouched(o)) && (f.Settled(o) ==> f'.Settled(o))
  {
    hide Leaf, External, Repointed;
  }

  lemma CopyGrew(w: Walk, f: Files, dep: string)
    requires w.Grew(f) && dep in w.disk && Leaf(dep) !in f.frameworks && Wanted(w.disk, w.Loads(), dep)
    ensures w.Grew(f.CopyIn(dep, w.disk[dep], Leaf(dep)))
  {
    hide Wanted, Leaf, External, Last;
    var leaf, f' := Leaf(dep), f.CopyIn(dep, w.disk[dep], Leaf(dep));
    assert f'.Extends(w.f0);
    forall l | l in f'.frameworks && l !in w.f0.frameworks
      ensures f'.Copied(w.disk, w.Loads(), l)
    {
      if l != leaf { assert f.Copied(w.disk, w.Loads(), l); }
    }
  }

  lemma CopyHalfway(f: Files, path: string, m: Macho, leaf: string, obj: Obj, done: seq<string>)
    requires leaf !in f.frameworks && f.Halfway(obj, done)
    ensures f.CopyIn(path, m, leaf).Halfway(obj, done)
  {
    hide Leaf, External, Partly;
    CopyKeeps(f, path, m, leaf, obj);
  }

  lemma CopyStep(w: Walk, f: Files, todo: set<Obj>, obj: Obj, done: seq<string>, dep: string)
    requires w.Within(f, todo, obj, done) && dep in w.disk && Leaf(dep) !in f.frameworks
    requires Wanted(w.disk, w.Loads(), dep)
    ensures w.Within(f.CopyIn(dep, w.disk[dep], Leaf(dep)), todo + {Lib(Leaf(dep))}, obj, done)
  {
    hide Wanted, Leaf, External, Last, Walk.Grew, Files.Settled, Files.Halfway;
    var leaf, m := Leaf(dep), w.disk[dep];
    var f' := f.CopyIn(dep, m, leaf);
    CopyGrew(w, f, dep);
    CopyHalfway(f, dep, m, leaf, obj, done);
    assert f'.Untouched(Lib(leaf));
    NewIsMine(w, f, leaf);
    WithinFacts(w, f, todo, obj, done);
    hide Files.Untouched;
    forall o | o in todo ensures f'.Untouched(o) { CopyKeeps(f, dep, m, leaf, o); }
    forall o | f'.Has(o) && o !in todo + {Lib(leaf)} && o != obj ensures f'.Settled(o) { CopyKeeps(f, dep, m, leaf, o); }
  }

  lemma NewIsMine(w: Walk, f: Files, leaf: string)
    requires w.Grew(f) && leaf !in f.frameworks
    ensures w.Mine(Lib(leaf))
  {
  }

  /** A file stays as it is when a reference of another one changes. */
  lemma RepointKeeps(f: Files, obj: Obj, dep: string, o: Obj)
    requires f.Has(obj) && o != obj
    ensures var f' := f.RepointIn(obj, dep);
      && (f.Untouched(o) ==> f'.Untouched(o)) && (f.Settled(o) ==> f'.Settled(o))
  {
    hide Leaf, External, Repointed;
  }

  lemma RepointHalfway(f: Files, obj: Obj, done: seq<string>, dep: string)
    requires f.Halfway(obj, done) && External(dep) && Leaf(dep) in f.frameworks
    ensures f.RepointIn(obj, dep).Halfway(obj, done + [dep])
  {
    hide Leaf, External, Partly;
    PartlyStep(f.origin[obj].loads, done, f.Get(obj).loads, dep);
  }

  lemma RepointGrew(w: Walk, f: Files, obj: Obj, dep: string)
    requires w.Grew(f) && f.Has(obj)
    ensures w.Grew(f.RepointIn(obj, dep))
  {
    hide Leaf, External, Wanted;
    var f' := f.RepointIn(obj, dep);
    assert f'.Extends(w.f0);
    forall l | l in f'.frameworks && l !in w.f0.frameworks
      ensures f'.Copied(w.disk, w.Loads(), l)
    {
      assert f.Copied(w.disk, w.Loads(), l);
    }
  }

  lemma RepointStep(w: Walk, f: Files, todo: set<Obj>, obj: Obj, done: seq<string>, dep: string)
    requires w.Within(f, todo, obj, done) && External(dep) && Leaf(dep) in f.frameworks
    ensures w.Within(f.RepointIn(obj, dep), todo, obj, done + [dep])
  {
    hide Leaf, External, Walk.Grew, Files.Untouched, Files.Settled;
    var f' := f.RepointIn(obj, dep);
    RepointGrew(w, f, obj, dep);
    RepointHalfway(f, obj, done, dep);
    forall o | o in todo ensures f'.Untouched(o) { RepointKeeps(f, obj, dep, o); }
    forall o | f'.Has(o) && o !in todo && o != obj ensures f'.Settled(o) { RepointKeeps(f, obj, dep, o); }
  }

  /** The names `deps` yields cover every external load of a file that has not been touched. */
  lemma NamesCover(f: Files, obj: Obj, own: string)
    requires f.Untouched(obj)
    ensures forall n :: n in f.origin[obj].loads && External(n) ==> n in InstallNames(own, f.Get(obj))
    ensures forall n :: n in InstallNames(own, f.Get(obj)) && External(n) ==> n in f.origin[obj].loads
  {
    if obj.Lib? { assert ("@rpath/" + obj.leaf)[..7] == "@rpath/"; }
  }

  // ------------------------------------------------------------------ the bundle, on disk

  ghost predicate Queued(q: seq<Obj>, todo: set<Obj>) {
    (forall o :: o in q <==> o in todo) && forall i, j :: 0 <= i < j < |q| ==> q[i] != q[j]
  }

  lemma Dequeue(q: seq<Obj>, todo: set<Obj>)
    requires Queued(q, todo) && q != []
    ensures q[0] in todo && Queued(q[1..], todo - {q[0]})
  {
  }

  lemma Enqueue(q: seq<Obj>, todo: set<Obj>, o: Obj)
    requires Queued(q, todo) && o !in todo
    ensures Queued(q + [o], todo + {o})
  {
  }

  /** Either nothing came in and nothing was queued, or a leaf of the universe came in. */
  ghost predicate Grows(universe: set<string>, keys: set<string>, keys': set<string>, q: nat, q': nat) {
    keys <= keys' && ((keys' == keys && q' == q) || universe - keys' < universe - keys)
  }

  lemma GrowsNone(universe: set<string>, keys: set<string>, q: nat)
    ensures Grows(universe, keys, keys, q, q)
  {
  }

  lemma GrowsOne(universe: set<string>, keys: set<string>, mid: set<string>, leaf: string, q: nat, q': nat)
    requires Grows(universe, keys, mid, q, q') && leaf in universe && leaf !in mid
    ensures Grows(universe, keys, mid + {leaf}, q, q' + 1)
  {
    var rest := universe - (mid + {leaf});
    assert leaf in universe - mid && leaf !in rest;
    assert rest < universe - mid;
  }

  lemma WithinFacts(w: Walk, f: Files, todo: set<Obj>, obj: Obj, done: seq<string>)
    requires w.Within(f, todo, obj, done)
    ensures w.Begun() && w.Grew(f) && w.Mine(obj) && f.Has(obj) && obj in f.origin
    ensures forall l :: Lib(l) in todo || Lib(l) == obj ==> l in f.frameworks
  {
  }

  lemma BetweenFacts(w: Walk, f: Files, todo: set<Obj>)
    requires w.Between(f, todo)
    ensures w.Begun() && forall o :: o in todo ==> f.Untouched(o)
  {
  }

  lemma OneQueued(o: Obj)
    ensures Queued([o], {o})
  {
  }

  lemma NoneQueued(todo: set<Obj>)
    requires Queued([], todo)
    ensures todo == {}
  {
  }

  lemma CopyFiles(f: Files, path: string, m: Macho, leaf: string)
    ensures var f' := f.CopyIn(path, m, leaf); f'.frameworks.Keys == f.frameworks.Keys + {leaf} && f'.origin == f.origin[Lib(leaf) := m]
  {
  }

  lemma RepointFiles(f: Files, o: Obj, dep: string)
    requires f.Has(o)
    ensures var f' := f.RepointIn(o, dep); f'.frameworks.Keys == f.frameworks.Keys && f'.origin == f.origin
  {
  }

  class Bundle {
    /** The build machine's files by path. */
    const disk: map<string, Macho>
    const programName: string
    var program: Macho
    var frameworks: map<string, Macho>
    ghost var origin: map<Obj, Macho>
    ghost var source: map<string, string>

    ghost function Now(): (f: Files)
      reads this
    {
      Files(program, frameworks, origin, source)
    }

    function Name(o: Obj): string {
      match o case Program => programName case Lib(leaf) => leaf
    }

    /** An executable and an empty Frameworks directory. */
    constructor (disk: map<string, Macho>, programName: string, program: Macho)
      requires program.id.None?
      ensures this.disk == disk && this.programName == programName
      ensures Now() == Files(program, map[], map[Program := program], map[]) && Now().Untouched(Program)
    {
      this.disk, this.programName, this.program := disk, programName, program;
      frameworks, origin, source := map[], map[Program := program], map[];
    }

    method Deps(o: Obj) returns (names: seq<string>)
      requires Now().Has(o)
      ensures names == InstallNames(Name(o), Now().Get(o))
    {
      match o
      case Program => names := InstallNames(programName, program);
      case Lib(leaf) => names := InstallNames(leaf, frameworks[leaf]);
    }

    /** `shutil.copy2`, then `install_name_tool -id`. */
    method CopyIn(path: string, leaf: string)
      requires path in disk
      modifies this
      ensures Now() == old(Now()).CopyIn(path, disk[path], leaf)
    {
      frameworks := frameworks[leaf := WithId(disk[path], leaf)];
      origin := origin[Lib(leaf) := disk[path]];
      source := source[leaf := path];
    }

    /** `install_name_tool -change dep @rpath/leaf`. */
    method Repoint(o: Obj, dep: string)
      requires Now().Has(o)
      modifies this
      ensures Now() == old(Now()).RepointIn(o, dep)
    {
      match o
      case Program => program := program.(loads := Change(program.loads, dep, Inside(dep)));
      case Lib(leaf) =>
        frameworks := frameworks[leaf := frameworks[leaf].(loads := Change(frameworks[leaf].loads, dep, Inside(dep)))];
    }

    /** One file of the walk: copy in what it loads and repoint its references. */
    method Process(obj: Obj, queue: seq<Obj>, ghost w: Walk, ghost todo: set<Obj>)
      returns (rest: seq<Obj>, missing: Option<string>, ghost left: set<Obj>)
      requires w.disk == disk && Queued(queue, todo) && w.Within(Now(), todo, obj, []) && Now().Untouched(obj)
      modifies this
      ensures if missing.Some? then missing.value !in disk && Wanted(disk, w.f0.origin[w.start].loads, missing.value)
              else w.Between(Now(), left) && Queued(rest, left)
      ensures missing.None? ==> Grows(LeafNames(disk, w.f0.origin[w.start].loads), old(frameworks.Keys), frameworks.Keys, |queue|, |rest|)
    {
      hide Wanted, LeafNames, Walk.Between, Walk.Within, Walk.Grew, Walk.Begun, Walk.Mine, Queued, Grows,
        Files.Has, Files.Untouched, Files.CopyIn, Files.RepointIn, External, Prefixed, Last, InstallNames, Leaf;
      ghost var start := Now();
      WithinFacts(w, start, todo, obj, []);
      GrowsNone(LeafNames(disk, w.Loads()), frameworks.Keys, |queue|);
      ghost var orig := start.origin[obj].loads;
      ghost var universe := LeafNames(disk, w.f0.origin[w.start].loads);
      rest, left, missing := queue, todo, None;
      var names := Deps(obj);
      NamesCover(start, obj, Name(obj));
      var i := 0;
      while i < |names|
        invariant 0 <= i <= |names|
        invariant w.Within(Now(), left, obj, names[..i]) && Queued(rest, left)
        invariant obj in origin && origin[obj].loads == orig && missing.None?
        invariant Grows(universe, start.frameworks.Keys, frameworks.Keys, |queue|, |rest|)
      {
        var dep := names[i];
        ghost var f, done := Now(), names[..i];
        assert names[..i + 1] == done + [dep];
        WithinFacts(w, f, left, obj, done);
        i := i + 1;
        if !External(dep) {
          Skip(w, f, left, obj, done, dep);
          continue;
        }
        DepWanted(w, f, obj, dep);
        var leaf := Leaf(dep);
        if leaf !in frameworks {
          if dep !in disk {
            missing := Some(dep);
            return;
          }
          CopyStep(w, f, left, obj, done, dep);
          CopyFiles(f, dep, disk[dep], leaf);
          CopyIn(dep, leaf);
          Enqueue(rest, left, Lib(leaf));
          GrowsOne(universe, start.frameworks.Keys, f.frameworks.Keys, leaf, |queue|, |rest|);
          rest, left := rest + [Lib(leaf)], left + {Lib(leaf)};
        }
        ghost var g := Now();
        WithinFacts(w, g, left, obj, done);
        RepointStep(w, g, left, obj, done, dep);
        RepointFiles(g, obj, dep);
        Repoint(obj, dep);
      }
      assert names[..i] == names;
      Leave(w, Now(), left, obj, names);
    }

    method BundleLibraries(start: Obj) returns (missing: Option<string>)
      requires Walk(disk, start, Now()).Between(Now(), {start})
      modifies this
      ensures var w := Walk(disk, start, old(Now()));
        if missing.Some? then missing.value !in disk && Wanted(disk, w.Loads(), missing.value) else w.Between(Now(), {})
    {
      hide Wanted, LeafNames, Walk.Between, Walk.Within, Walk.Grew, Files.Untouched, Files.CopyIn, Files.RepointIn, Queued,
        System, Relative, InstallNames, Leaf;
      ghost var w := Walk(disk, start, Now());
      BetweenFacts(w, Now(), {start});
      ghost var universe := LeafNames(disk, w.Loads());
      var queue := [start];
      ghost var todo := {start};
      assert Queued(queue, todo) by { OneQueued(start); }
      while queue != []
        invariant w.Between(Now(), todo) && Queued(queue, todo)
        decreases universe - frameworks.Keys, |queue|
      {
        var obj := queue[0];
        Dequeue(queue, todo);
        BetweenFacts(w, Now(), todo);
        Enter(w, Now(), todo, obj);
        queue, missing, todo := Process(obj, queue[1..], w, todo - {obj});
        if missing.Some? {
          return;
        }
      }
      missing := None;
      assert todo == {} by { NoneQueued(todo); }
    }

    /** SDL3, which no load command names, copied under the leaf sdl2-compat asks for. */
    method BundleDlopenedSdl3() returns (r: Sdl3)
      requires Now().Clean()
      modifies this
      ensures match r
        case NotNeeded => !old(Now()).NeedsSdl3() && Now() == old(Now())
        case Bundled(path) =>
          old(Now()).NeedsSdl3() && FirstOn(disk, Candidates(), path) && Now().Clean() && Now().HasSdl3(old(Now()), disk, path)
        case NoneFound => old(Now()).NeedsSdl3() && forall c :: c in Candidates() ==> c !in disk
        case Unfound(path, dep) =>
          old(Now()).NeedsSdl3() && FirstOn(disk, Candidates(), path) && dep !in disk && Wanted(disk, disk[path].loads, dep)
    {
      hide Files.Settled, Files.Untouched, Files.Clean, Files.HasSdl3, Walk.Between, Files.CopyIn, Leaf, System, Relative, Candidates;
      if SDL2 !in frameworks || !frameworks[SDL2].dlopens {
        return NotNeeded;
      }
      var cands := Candidates();
      var i := 0;
      while i < |cands|
        invariant 0 <= i <= |cands| && Now() == old(Now()) && cands == Candidates()
        invariant forall j :: 0 <= j < i ==> cands[j] !in disk
      {
        var path := cands[i];
        if path in disk {
          ghost var f := Now();
          CopyOver(disk, f, path, SDL3);
          CopyFiles(f, path, disk[path], SDL3);
          CopyIn(path, SDL3);
          var missing := BundleLibraries(Lib(SDL3));
          if missing.Some? {
            return Unfound(path, missing.value);
          }
          WalkSdl3(disk, f, path, Now());
          return Bundled(path);
        }
        i := i + 1;
      }
      return NoneFound;
    }

    /** What is listed of the program's directory and of Frameworks. */
    method Listed() returns (files: seq<(string, Macho)>)
      ensures forall x :: x in files <==> x == (programName, program) || (x.0 in frameworks && x.1 == frameworks[x.0])
    {
      files := [(programName, program)];
      var rest := frameworks.Keys;
      while rest != {}
        invariant rest <= frameworks.Keys
        invariant forall x :: x in files <==>
          x == (programName, program) || (x.0 in frameworks.Keys - rest && x.1 == frameworks[x.0])
      {
        var l :| l in rest;
        files, rest := files + [(l, frameworks[l])], rest - {l};
      }
    }

    /** A file of the bundle that names something on the build machine. */
    ghost predicate LeaksHere(e: (string, string))
      reads this
    {
      exists o :: Now().Has(o) && Name(o) == e.0 && Shows(Now().Get(o), e.1)
    }

    lemma ListedLeaks(files: seq<(string, Macho)>, e: (string, string))
      requires forall x :: x in files <==> x == (programName, program) || (x.0 in frameworks && x.1 == frameworks[x.0])
      ensures Leaks(files, e) <==> LeaksHere(e)
    {
      hide Shows;
      if Leaks(files, e) {
        var x :| x in files && x.0 == e.0 && Shows(x.1, e.1);
        assert Now().Has(if x == (programName, program) then Program else Lib(x.0));
      }
      if LeaksHere(e) {
        var o :| Now().Has(o) && Name(o) == e.0 && Shows(Now().Get(o), e.1);
        assert (Name(o), Now().Get(o)) in files;
      }
    }

    /** `verify_self_contained`, up to the order of the list. */
    method VerifySelfContained(resources: seq<(string, Macho)>) returns (leaks: seq<(string, string)>)
      ensures forall e :: e in leaks <==> Leaks(resources, e) || LeaksHere(e)
      ensures Now().Clean() ==> forall e :: e in leaks <==> Leaks(resources, e)
    {
      hide External, InstallNames, Leaks, LeaksHere, Files.Clean;
      var files := Listed();
      leaks := LeaksOf(files + resources);
      LeaksJoin(files, resources);
      forall e ensures Leaks(files, e) <==> LeaksHere(e) { ListedLeaks(files, e); }
      ghost var now := Now();
      if now.Clean() { SelfContained(now, programName, files, resources); }
    }
  }

  lemma CopyOver(disk: map<string, Macho>, f: Files, path: string, leaf: string)
    requires f.Clean() && path in disk
    ensures var f' := f.CopyIn(path, disk[path], leaf); Walk(disk, Lib(leaf), f').Between(f', {Lib(leaf)})
  {
    hide Leaf, External, Repointed;
    var f' := f.CopyIn(path, disk[path], leaf);
    assert f'.Untouched(Lib(leaf));
    forall o | f'.Has(o) && o != Lib(leaf)
      ensures f'.Settled(o)
    {
      assert f.Settled(o);
    }
  }

  lemma BetweenClean(w: Walk, f: Files)
    requires w.Between(f, {})
    ensures f.Clean() && f.Extends(w.f0)
  {
  }

  /** What a walk brings in is needed, when what its start loads is. */
  lemma WalkSourced(w: Walk, f: Files, loads: seq<string>)
    requires w.Between(f, {}) && forall l :: l in w.f0.frameworks ==> w.f0.Sourced(w.disk, loads, l)
    requires forall q :: Wanted(w.disk, w.Loads(), q) ==> Needed(w.disk, loads, q)
    ensures f.AllSourced(w.disk, loads)
  {
    hide Leaf, External, Repointed, Wanted, Needed, Prefixed, Last, Files.Settled;
    forall l | l in f.frameworks
      ensures f.Sourced(w.disk, loads, l)
    {
      if l in w.f0.frameworks {
        assert w.f0.Has(Lib(l)) && w.f0.Sourced(w.disk, loads, l);
      } else {
        assert f.Copied(w.disk, w.Loads(), l);
      }
    }
  }

  lemma CopySourced(disk: map<string, Macho>, f: Files, path: string, loads: seq<string>)
    requires path in disk && FirstOn(disk, Candidates(), path) && f.AllSourced(disk, loads)
    ensures var f' := f.CopyIn(path, disk[path], SDL3);
      f'.AllSourced(disk, loads) && forall q :: Wanted(disk, disk[path].loads, q) ==> Needed(disk, loads, q)
  {
    hide Wanted, Candidates, FirstOn, Last;
    assert FirstOn(disk, Candidates(), path) && Needed(disk, loads, path);
    var f' := f.CopyIn(path, disk[path], SDL3);
    forall l | l in f'.frameworks ensures f'.Sourced(disk, loads, l) {
      if l != SDL3 { assert f.Sourced(disk, loads, l); }
    }
  }

  lemma WalkSdl3(disk: map<string, Macho>, f0: Files, path: string, f: Files)
    requires path in disk && Walk(disk, Lib(SDL3), f0.CopyIn(path, disk[path], SDL3)).Between(f, {})
    ensures f.Clean() && f.HasSdl3(f0, disk, path)
  {
    hide Wanted, Needed, Candidates, FirstOn, Files.Settled, Files.AllSourced, Files.Sourced;
    var w := Walk(disk, Lib(SDL3), f0.CopyIn(path, disk[path], SDL3));
    BetweenClean(w, f);
    forall loads | f0.AllSourced(disk, loads) && FirstOn(disk, Candidates(), path)
      ensures f.AllSourced(disk, loads)
    {
      CopySourced(disk, f0, path, loads);
      assert forall l :: l in w.f0.frameworks ==> w.f0.Sourced(disk, loads, l) by { EachSourced(w.f0, disk, loads); }
      WalkSourced(w, f, loads);
    }
    assert w.f0.Has(Lib(SDL3)) && w.f0.Has(Program);
  }

  lemma EachSourced(f: Files, disk: map<string, Macho>, loads: seq<string>)
    requires f.AllSourced(disk, loads)
    ensures forall l :: l in f.frameworks ==> f.Sourced(disk, loads, l)
  {
  }

  // ------------------------------------------------------------------ what the two passes achieve

  /** A settled file names only the system, relative paths, and bundled libraries through `@rpath`. */
  lemma SettledReferences(f: Files, o: Obj, i: nat)
    requires f.Settled(o) && i < |f.Get(o).loads|
    ensures !External(f.Get(o).loads[i])
    ensures var was := f.origin[o].loads[i]; External(was) ==>
      f.Get(o).loads[i] == "@rpath/" + Leaf(was) && Leaf(was) in f.frameworks
    ensures !External(f.origin[o].loads[i]) ==> f.Get(o).loads[i] == f.origin[o].loads[i]
  {
    assert f.origin[o].loads[i] in f.origin[o].loads;
  }

  /** The copies are wanted, and what they load has been copied. */
  ghost predicate ClosedCopies(disk: map<string, Macho>, loads: seq<string>, source: map<string, string>) {
    && (forall l :: l in source ==> source[l] in disk && Leaf(source[l]) == l && Wanted(disk, loads, source[l]))
    && (forall n :: n in loads && External(n) ==> Leaf(n) in source)
    && (forall l, n :: l in source && n in disk[source[l]].loads && External(n) ==> Leaf(n) in source)
  }

  /** Among what is wanted, a leaf names one library. */
  ghost predicate LeavesDiffer(disk: map<string, Macho>, loads: seq<string>) {
    forall a, b :: Wanted(disk, loads, a) && Wanted(disk, loads, b) && Leaf(a) == Leaf(b) ==> a == b
  }

  lemma OwnCopy(disk: map<string, Macho>, loads: seq<string>, source: map<string, string>, q: string)
    requires ClosedCopies(disk, loads, source) && LeavesDiffer(disk, loads)
    requires Wanted(disk, loads, q) && Leaf(q) in source
    ensures source[Leaf(q)] == q
  {
    hide Wanted, Leaf, External;
    assert Wanted(disk, loads, source[Leaf(q)]) && Leaf(source[Leaf(q)]) == Leaf(q);
  }

  lemma CopiesClosed(disk: map<string, Macho>, loads: seq<string>, source: map<string, string>, copied: set<string>)
    requires ClosedCopies(disk, loads, source) && LeavesDiffer(disk, loads)
    requires copied == set l | l in source :: source[l]
    ensures Closed(Links(disk), copied)
  {
    hide Wanted, Leaf, External, LeavesDiffer;
    forall p, m | p in copied && m in Succ(Links(disk), p)
      ensures m in copied
    {
      var l :| l in source && source[l] == p;
      assert m in disk[p].loads && External(m);
      WantedNext(disk, loads, p, m);
      OwnCopy(disk, loads, source, m);
    }
  }

  lemma ExactCopies(disk: map<string, Macho>, loads: seq<string>, source: map<string, string>, q: string)
    requires ClosedCopies(disk, loads, source) && LeavesDiffer(disk, loads) && Wanted(disk, loads, q)
    ensures Leaf(q) in source && source[Leaf(q)] == q
  {
    hide Reach, Leaf, External, LeavesDiffer, ClosedCopies;
    var n :| n in loads && External(n) && Reach(Links(disk), n, q);
    var copied := set l | l in source :: source[l];
    WantedDirect(disk, loads, n);
    StartCopied(disk, loads, source, n);
    OwnCopy(disk, loads, source, n);
    CopiesClosed(disk, loads, source, copied);
    ClosedReach(Links(disk), copied, n, q);
    var l :| l in source && source[l] == q;
    StartLeaf(disk, loads, source, l);
  }

  lemma StartCopied(disk: map<string, Macho>, loads: seq<string>, source: map<string, string>, n: string)
    requires ClosedCopies(disk, loads, source) && n in loads && External(n)
    ensures Leaf(n) in source
  {
  }

  lemma StartLeaf(disk: map<string, Macho>, loads: seq<string>, source: map<string, string>, l: string)
    requires ClosedCopies(disk, loads, source) && l in source
    ensures Leaf(source[l]) == l && source[l] in disk
  {
  }

  lemma CopiesAreClosed(w: Walk, f: Files, source: map<string, string>)
    requires w.Between(f, {}) && w.f0.frameworks == map[] && w.start == Program
    requires source == map l | l in f.frameworks :: f.source[l]
    ensures ClosedCopies(w.disk, w.Loads(), source)
  {
    hide Wanted, Leaf, External, Repointed, Files.Identified;
    assert f.Settled(Program);
    forall l | l in source
      ensures source[l] in w.disk && Leaf(source[l]) == l && Wanted(w.disk, w.Loads(), source[l])
    {
      assert f.Copied(w.disk, w.Loads(), l);
    }
    forall l, n | l in source && n in w.disk[source[l]].loads && External(n)
      ensures Leaf(n) in source
    {
      assert f.Copied(w.disk, w.Loads(), l) && f.Settled(Lib(l));
    }
  }

  lemma CopyIs(w: Walk, f: Files, q: string)
    requires w.Between(f, {}) && w.f0.frameworks == map[]
    requires Leaf(q) in f.frameworks && Leaf(q) in f.source && f.source[Leaf(q)] == q
    ensures q in w.disk && f.frameworks[Leaf(q)].loads == Repointed(w.disk[q].loads)
  {
    hide Wanted, Leaf, External, Repointed, Files.Identified;
    assert f.Copied(w.disk, w.Loads(), Leaf(q)) && f.Settled(Lib(Leaf(q)));
  }

  /** From an empty directory every library copied in is wanted by the program. */
  lemma CopiesAreWanted(w: Walk, f: Files, l: string)
    requires w.Between(f, {}) && w.f0.frameworks == map[] && l in f.frameworks
    ensures l in f.source && Leaf(f.source[l]) == l && Wanted(w.disk, w.Loads(), f.source[l])
  {
    hide Wanted, Leaf, External, Files.Settled;
    assert f.Copied(w.disk, w.Loads(), l);
  }

  /** And when a leaf names one library, every wanted one has been copied, with its references repointed. */
  lemma WantedAreCopied(w: Walk, f: Files, q: string)
    requires w.Between(f, {}) && w.f0.frameworks == map[] && w.start == Program
    requires LeavesDiffer(w.disk, w.Loads()) && Wanted(w.disk, w.Loads(), q)
    ensures q in w.disk && Leaf(q) in f.frameworks && f.source.Keys >= f.frameworks.Keys && f.source[Leaf(q)] == q
    ensures f.frameworks[Leaf(q)].loads == Repointed(w.disk[q].loads)
  {
    forall l | l in f.frameworks ensures l in f.source { CopiesAreWanted(w, f, l); }
    hide Wanted, Leaf, External, Repointed, LeavesDiffer, Walk.Between;
    var source := map l | l in f.frameworks :: f.source[l];
    CopiesAreClosed(w, f, source);
    ExactCopies(w.disk, w.Loads(), source, q);
    CopyIs(w, f, q);
  }

  /** A file of the list that names something on the build machine. */
  ghost predicate Leaks(files: seq<(string, Macho)>, e: (string, string)) {
    exists x :: x in files && x.0 == e.0 && Shows(x.1, e.1)
  }

  /** The leaks `verify_self_contained` collects over a list of named files. */
  function LeaksOf(files: seq<(string, Macho)>): (r: seq<(string, string)>)
    ensures forall e :: e in r <==> Leaks(files, e)
  {
    hide Shows, InstallNames, Prefixed;
    if files == [] then []
    else
      var head := LeaksIn(files[0].0, InstallNames(files[0].0, files[0].1));
      var tail := LeaksOf(files[1..]);
      assert forall n :: n in InstallNames(files[0].0, files[0].1) && External(n) <==> Shows(files[0].1, n) by {
        forall n ensures n in InstallNames(files[0].0, files[0].1) && External(n) <==> Shows(files[0].1, n) {
          NamesShown(files[0].0, files[0].1, n);
        }
      }
      assert forall x :: x in files <==> x == files[0] || x in files[1..];
      head + tail
  }

  function LeaksIn(name: string, names: seq<string>): (r: seq<(string, string)>)
    ensures forall e :: e in r <==> e.0 == name && e.1 in names && External(e.1)
  {
    if names == [] then []
    else
      var tail := LeaksIn(name, names[1..]);
      assert forall n :: n in names <==> n == names[0] || n in names[1..];
      (if External(names[0]) then [(name, names[0])] else []) + tail
  }

  lemma {:induction false} LeaksJoin(a: seq<(string, Macho)>, b: seq<(string, Macho)>)
    ensures LeaksOf(a + b) == LeaksOf(a) + LeaksOf(b)
  {
    hide Leaks, Shows, InstallNames, External;
    if a == [] {
      assert a + b == b;
    } else {
      assert (a + b)[1..] == a[1..] + b;
      LeaksJoin(a[1..], b);
    }
  }

  /** No name a settled file shows leaks. */
  lemma SettledNames(f: Files, o: Obj, n: string)
    requires f.Settled(o) && (n in f.Get(o).loads || f.Get(o).id == Some(n))
    ensures Prefixed(n)
  {
    if n in f.Get(o).loads {
      var i :| 0 <= i < |f.Get(o).loads| && f.Get(o).loads[i] == n;
      SettledReferences(f, o, i);
    } else {
      assert "@rpath/" <= n;
    }
  }

  /** After both passes the only leaks the last check can find are those of the resources. */
  lemma SelfContained(f: Files, programName: string, bundled: seq<(string, Macho)>, resources: seq<(string, Macho)>)
    requires f.Clean()
    requires forall x :: x in bundled ==> x == (programName, f.program) || (x.0 in f.frameworks && x.1 == f.frameworks[x.0])
    ensures LeaksOf(bundled + resources) == LeaksOf(resources)
  {
    LeaksJoin(bundled, resources);
    if LeaksOf(bundled) != [] {
      var e := LeaksOf(bundled)[0];
      assert Leaks(bundled, e);
      var x :| x in bundled && x.0 == e.0 && Shows(x.1, e.1);
      SettledNames(f, if x == (programName, f.program) then Program else Lib(x.0), e.1);
    }
  }

  // ------------------------------------------------------------------ the whole run

  /** A reference that was on the build machine now names the library of the same last part, which is there; others stay. */
  ghost predicate Points(was: string, now: string, frameworks: map<string, Macho>) {
    if Prefixed(was) then now == was else exists n :: Last(was, n) && n in frameworks && now == "@rpath/" + n
  }

  ghost predicate Complete(was: seq<string>, now: seq<string>, frameworks: map<string, Macho>) {
    |now| == |was| && forall i :: 0 <= i < |was| ==> Points(was[i], now[i], frameworks)
  }

  /** The library `l` of the bundle is the file `q` of the build machine, rewritten, and something needs it. */
  ghost predicate CopyOf(disk: map<string, Macho>, was: seq<string>, frameworks: map<string, Macho>, l: string, q: string)
    requires l in frameworks
  {
    && q in disk && Needed(disk, was, q) && (l == SDL3 || Last(q, l))
    && Complete(disk[q].loads, frameworks[l].loads, frameworks)
    && frameworks[l].id == (if disk[q].id.Some? then Some("@rpath/" + l) else None) && frameworks[l].dlopens == disk[q].dlopens
  }

  /** Wanted libraries are called differently. */
  ghost predicate Apart(disk: map<string, Macho>, was: seq<string>) {
    forall a, b, n :: Wanted(disk, was, a) && Wanted(disk, was, b) && Last(a, n) && Last(b, n) ==> a == b
  }

  /** The library is there under its own name. */
  ghost predicate Bundled(disk: map<string, Macho>, was: seq<string>, frameworks: map<string, Macho>, q: string) {
    exists n :: Last(q, n) && n in frameworks && (n == SDL3 || CopyOf(disk, was, frameworks, n, q))
  }

  /** The program and every library of the bundle is complete, and each wanted library is there. */
  ghost predicate Whole(disk: map<string, Macho>, was: seq<string>, program: Macho, frameworks: map<string, Macho>) {
    && Complete(was, program.loads, frameworks)
    && (forall l :: l in frameworks ==> exists q :: CopyOf(disk, was, frameworks, l, q))
    && (Apart(disk, was) ==> forall q :: Wanted(disk, was, q) ==> Bundled(disk, was, frameworks, q))
  }

  datatype Outcome = NotFound(dep: string) | NoSdl3 | Leaky(leaks: seq<(string, string)>)
                   | Assembled(program: Macho, frameworks: map<string, Macho>)

  lemma SettledComplete(f: Files, o: Obj)
    requires f.Settled(o)
    ensures Complete(f.origin[o].loads, f.Get(o).loads, f.frameworks)
  {
    hide Leaf, External, Prefixed, Last;
    var was, now := f.origin[o].loads, f.Get(o).loads;
    forall i | 0 <= i < |was|
      ensures Points(was[i], now[i], f.frameworks)
    {
      SettledReferences(f, o, i);
      assert External(was[i]) ==> Last(was[i], Leaf(was[i]));
    }
  }

  lemma SettledCopy(disk: map<string, Macho>, f: Files, was: seq<string>, l: string)
    requires f.Clean() && f.AllSourced(disk, was) && l in f.frameworks
    ensures l in f.source && CopyOf(disk, was, f.frameworks, l, f.source[l])
  {
    hide Leaf, Last, Needed, Complete, Repointed, Files.Present;
    assert f.Settled(Lib(l)) && f.Sourced(disk, was, l);
    SettledComplete(f, Lib(l));
  }

  lemma CleanIsWhole(disk: map<string, Macho>, f: Files)
    requires f.Clean() && Program in f.origin && f.AllSourced(disk, f.origin[Program].loads)
    requires Apart(disk, f.origin[Program].loads) ==>
      forall q :: Wanted(disk, f.origin[Program].loads, q) ==> KeptWanted(f, q)
    ensures Whole(disk, f.origin[Program].loads, f.program, f.frameworks)
  {
    hide Leaf, External, Last, Wanted, Needed, Complete, CopyOf, Apart, Files.AllSourced;
    var was := f.origin[Program].loads;
    assert f.Settled(Program);
    SettledComplete(f, Program);
    forall l | l in f.frameworks
      ensures exists q :: CopyOf(disk, was, f.frameworks, l, q)
    {
      SettledCopy(disk, f, was, l);
    }
    if Apart(disk, was) {
      forall q | Wanted(disk, was, q) ensures Bundled(disk, was, f.frameworks, q) {
        assert KeptWanted(f, q);
        SettledCopy(disk, f, was, Leaf(q));
        assert Last(q, Leaf(q));
      }
    }
  }

  /** The file under the library's name is that library, or SDL3 put over it. */
  ghost predicate KeptWanted(f: Files, q: string) {
    Leaf(q) in f.frameworks && (Leaf(q) == SDL3 || (Leaf(q) in f.source && f.source[Leaf(q)] == q))
  }

  lemma ApartLeaves(disk: map<string, Macho>, was: seq<string>)
    requires Apart(disk, was)
    ensures LeavesDiffer(disk, was)
  {
    hide Wanted, Leaf, Last;
    forall a, b | Wanted(disk, was, a) && Wanted(disk, was, b) && Leaf(a) == Leaf(b)
      ensures a == b
    {
      assert Last(a, Leaf(a)) && Last(b, Leaf(a));
    }
  }

  lemma FirstPass(w: Walk, f: Files)
    requires w.Between(f, {}) && w.f0.frameworks == map[] && w.start == Program && Program in w.f0.origin && Apart(w.disk, w.Loads())
    ensures forall q :: Wanted(w.disk, w.Loads(), q) ==> KeptWanted(f, q)
  {
    hide Walk.Between, Wanted, Leaf, Apart;
    ApartLeaves(w.disk, w.Loads());
    forall q | Wanted(w.disk, w.Loads(), q) ensures KeptWanted(f, q) {
      WantedAreCopied(w, f, q);
    }
  }

  /** Both passes from an empty directory, then the check: what is left to leak is a resource's. */
  method Assemble(disk: map<string, Macho>, programName: string, program: Macho, resources: seq<(string, Macho)>)
    returns (end: Outcome)
    requires program.id.None?
    ensures match end
      case NotFound(dep) =>
        dep !in disk && (Wanted(disk, program.loads, dep) ||
                         exists c :: FirstOn(disk, Candidates(), c) && Wanted(disk, disk[c].loads, dep))
      case NoSdl3 => forall c :: c in Candidates() ==> c !in disk
      case Leaky(leaks) => leaks != [] && forall e :: e in leaks <==> Leaks(resources, e)
      case Assembled(now, frameworks) =>
        && Whole(disk, program.loads, now, frameworks)
        && (SDL2 in frameworks && frameworks[SDL2].dlopens ==> SDL3 in frameworks)
        && forall e :: !Leaks(resources, e)
  {
    hide Whole, Wanted, Leaks, Files.Clean, Files.AllSourced, Files.Sourced, Files.Untouched, Walk.Between, FirstOn, Candidates,
      Leaf, External, KeptWanted, Apart, Prefixed;
    var bundle := new Bundle(disk, programName, program);
    ghost var w := Walk(disk, Program, bundle.Now());
    Fresh(w);
    var missing := bundle.BundleLibraries(Program);
    if missing.Some? {
      return NotFound(missing.value);
    }
    ghost var first := bundle.Now();
    FirstClean(w, first);
    var sdl3 := bundle.BundleDlopenedSdl3();
    if sdl3.NoneFound? {
      return NoSdl3;
    } else if sdl3.Unfound? {
      return NotFound(sdl3.dep);
    }
    ghost var last := bundle.Now();
    if sdl3.Bundled? { HasSdl3Facts(disk, first, last, sdl3.path, program.loads); }
    CleanIsWhole(disk, last);
    var leaks := bundle.VerifySelfContained(resources);
    end := if leaks != [] then Leaky(leaks) else Assembled(bundle.program, bundle.frameworks);
  }

  lemma Fresh(w: Walk)
    requires w.start == Program && w.f0.frameworks == map[] && w.f0.Untouched(Program)
    ensures w.Between(w.f0, {Program})
  {
  }

  lemma FirstClean(w: Walk, f: Files)
    requires w.Between(f, {}) && w.start == Program && w.f0.frameworks == map[] && Program in w.f0.origin
    ensures f.Clean() && f.AllSourced(w.disk, w.Loads()) && Program in f.origin && f.origin[Program] == w.f0.origin[Program]
    ensures Apart(w.disk, w.Loads()) ==> forall q :: Wanted(w.disk, w.Loads(), q) ==> KeptWanted(f, q)
  {
    hide Leaf, Wanted, Files.Settled, Apart, Files.AllSourced, KeptWanted;
    BetweenClean(w, f);
    WalkSourced(w, f, w.Loads());
    if Apart(w.disk, w.Loads()) { FirstPass(w, f); }
    assert w.f0.Has(Program);
  }

  lemma HasSdl3Facts(disk: map<string, Macho>, f0: Files, f: Files, path: string, loads: seq<string>)
    requires f.HasSdl3(f0, disk, path) && f0.AllSourced(disk, loads) && FirstOn(disk, Candidates(), path)
    ensures f.AllSourced(disk, loads)
    ensures forall q :: KeptWanted(f0, q) ==> KeptWanted(f, q)
  {
    hide Leaf, Files.AllSourced, FirstOn, Candidates;
  }
}
