/** ci/gen-third-party-notices.py: which packages of the lock ship, and the table that shows them. */
module NoticesData {
  import opened Options

  // ------------------------------------------------------------------ the lock

  /** A line of a Cargo.lock: a package header, one of the three keys that are read, or anything else. */
  datatype LockLine = Header | Field(key: Key, value: string) | Other
  datatype Key = Name | Version | Source

  /** Each package and its versions, in file order. */
  type Lock = map<string, seq<string>>

  const REGISTRY: string := "registry+"

  predicate Wanted(current: map<Key, string>, also: set<string>) {
    (Source in current && REGISTRY <= current[Source]) || (Name in current && current[Name] in also)
  }

  /** A package's table is complete: None where a name or a version is missing and the source raises. */
  function Close(found: Lock, current: map<Key, string>, also: set<string>): Option<Lock> {
    if !Wanted(current, also) then Some(found)
    else if Name !in current || Version !in current then None
    else
      var name := current[Name];
      Some(found[name := (if name in found then found[name] else []) + [current[Version]]])
  }

  function LockFrom(lines: seq<LockLine>, found: Lock, current: map<Key, string>, also: set<string>): Option<Lock>
    decreases |lines|
  {
    if lines == [] then Close(found, current, also)
    else
      match lines[0]
      case Header =>
        (match Close(found, current, also)
         case None => None
         case Some(more) => LockFrom(lines[1..], more, map[], also))
      case Field(key, value) => LockFrom(lines[1..], found, current[key := value], also)
      case Other => LockFrom(lines[1..], found, current, also)
  }

  ghost predicate Versioned(lock: Lock) {
    forall n :: n in lock ==> lock[n] != []
  }

  /** Every package of a lock that parses has a version. */
  lemma {:induction false} LockVersioned(lines: seq<LockLine>, found: Lock, current: map<Key, string>, also: set<string>)
    requires Versioned(found) && LockFrom(lines, found, current, also).Some?
    ensures Versioned(LockFrom(lines, found, current, also).value)
    decreases |lines|
  {
    if lines != [] {
      match lines[0]
      case Header => LockVersioned(lines[1..], Close(found, current, also).value, map[], also);
      case Field(key, value) => LockVersioned(lines[1..], found, current[key := value], also);
      case Other => LockVersioned(lines[1..], found, current, also);
    }
  }

  /** `parse_lock`. */
  method ParseLock(lines: seq<LockLine>, also: set<string>) returns (lock: Option<Lock>)
    ensures lock == LockFrom(lines, map[], map[], also)
    ensures lock.Some? ==> Versioned(lock.value)
  {
    var found: Lock, current: map<Key, string> := map[], map[];
    assert lines[0..] == lines;
    for i := 0 to |lines|
      invariant LockFrom(lines, map[], map[], also) == LockFrom(lines[i..], found, current, also)
    {
      hide Close;
      assert lines[i..][0] == lines[i] && lines[i..][1..] == lines[i + 1..];
      match lines[i]
      case Header =>
        var more := Close(found, current, also);
        if more.None? {
          return None;
        }
        found, current := more.value, map[];
      case Field(key, value) =>
        current := current[key := value];
      case Other =>
    }
    lock := Close(found, current, also);
    if lock.Some? { LockVersioned(lines, map[], map[], also); }
  }

  // ------------------------------------------------------------------ what is read, off the lines

  /** `lines[a..b]` are the lines of one package: between two headers, the ends of the file, or one of each. */
  ghost predicate Package(lines: seq<LockLine>, a: nat, b: nat) {
    && a <= b <= |lines| && (a > 0 ==> lines[a - 1].Header?) && (b < |lines| ==> lines[b].Header?)
    && forall k :: a <= k < b ==> !lines[k].Header?
  }

  /** The last line among them that gives the key gives this value. */
  ghost predicate Says(lines: seq<LockLine>, a: nat, b: nat, key: Key, value: string) {
    exists k :: a <= k < b <= |lines| && lines[k] == Field(key, value)
                && forall j :: k < j < b ==> !(lines[j].Field? && lines[j].key == key)
  }

  /** The package comes from the registry, or is one of those that are wanted anyway. */
  ghost predicate Chosen(lines: seq<LockLine>, a: nat, b: nat, also: set<string>) {
    || (exists s :: Says(lines, a, b, Source, s) && "registry+" <= s)
    || (exists n :: Says(lines, a, b, Name, n) && n in also)
  }

  ghost predicate Lists(lock: Lock, name: string, version: string) {
    name in lock && version in lock[name]
  }

  ghost predicate Locks(lines: seq<LockLine>, also: set<string>, name: string, version: string) {
    exists a: nat, b: nat :: LocksAt(lines, also, a, b, name, version)
  }

  /** `current` holds what the lines of the package say so far. */
  ghost predicate Collected(lines: seq<LockLine>, a: nat, b: nat, current: map<Key, string>) {
    forall key, value :: Says(lines, a, b, key, value) <==> key in current && current[key] == value
  }

  lemma CollectedStep(lines: seq<LockLine>, a: nat, b: nat, current: map<Key, string>)
    requires a <= b < |lines| && Collected(lines, a, b, current)
    ensures Collected(lines, a, b + 1, if lines[b].Field? then current[lines[b].key := lines[b].value] else current)
  {
    hide Says;
    var next := if lines[b].Field? then current[lines[b].key := lines[b].value] else current;
    var e := b + 1;
    forall key, value ensures Says(lines, a, e, key, value) <==> key in next && next[key] == value {
      SaysStep(lines, a, b, key, value);
      assert Says(lines, a, b, key, value) <==> key in current && current[key] == value;
    }
  }

  ghost predicate LocksAt(lines: seq<LockLine>, also: set<string>, x: nat, y: nat, name: string, version: string) {
    Package(lines, x, y) && Chosen(lines, x, y, also) && Says(lines, x, y, Name, name) && Says(lines, x, y, Version, version)
  }

  /** A package that is closed adds what it says, or has no name or no version and ends the reading. */
  lemma CloseMeans(lines: seq<LockLine>, also: set<string>, a: nat, b: nat, found: Lock, current: map<Key, string>)
    requires Package(lines, a, b) && Collected(lines, a, b, current)
    ensures Close(found, current, also).None? <==>
      Chosen(lines, a, b, also) && !((exists n :: Says(lines, a, b, Name, n)) && exists v :: Says(lines, a, b, Version, v))
    ensures match Close(found, current, also)
      case None => true
      case Some(more) => forall name, version :: Lists(more, name, version) <==>
        Lists(found, name, version) || LocksAt(lines, also, a, b, name, version)
  {
    hide Says, Package;
    assert Source in current ==> Says(lines, a, b, Source, current[Source]);
    assert Name in current ==> Says(lines, a, b, Name, current[Name]);
    assert Version in current ==> Says(lines, a, b, Version, current[Version]);
    assert Wanted(current, also) <==> Chosen(lines, a, b, also);
  }

  lemma SaysStep(lines: seq<LockLine>, a: nat, b: nat, key: Key, value: string)
    requires a <= b < |lines|
    ensures Says(lines, a, b + 1, key, value) <==>
      if lines[b].Field? && lines[b].key == key then lines[b].value == value else Says(lines, a, b, key, value)
  {
    if lines[b].Field? && lines[b].key == key {
      if lines[b].value == value { assert lines[b] == Field(key, value); }
    } else if k :| a <= k < b <= |lines| && lines[k] == Field(key, value) && forall j :: k < j < b ==> !(lines[j].Field? && lines[j].key == key) {
      assert forall j :: k < j < b + 1 ==> !(lines[j].Field? && lines[j].key == key);
    }
  }

  /** The packages that end before `a` are in the table, and none of them ended the reading. */
  ghost predicate LocksBefore(lines: seq<LockLine>, also: set<string>, a: nat, found: Lock) {
    && (forall name, version :: Lists(found, name, version) <==> exists x: nat, y: nat :: y < a && LocksAt(lines, also, x, y, name, version))
    && forall x: nat, y: nat :: y < a && Package(lines, x, y) && Chosen(lines, x, y, also) ==> Complete(lines, x, y)
  }

  ghost predicate Complete(lines: seq<LockLine>, a: nat, b: nat) {
    (exists n :: Says(lines, a, b, Name, n)) && exists v :: Says(lines, a, b, Version, v)
  }

  /** A package that does not end before `a` ends where the one does that begins there. */
  lemma OnePackage(lines: seq<LockLine>, a: nat, b: nat, x: nat, y: nat)
    requires Package(lines, a, b) && Package(lines, x, y) && a <= y <= b
    ensures x == a && y == b
  {
  }

  lemma ClosedBefore(lines: seq<LockLine>, also: set<string>, a: nat, b: nat, found: Lock, current: map<Key, string>)
    requires Package(lines, a, b) && Collected(lines, a, b, current) && LocksBefore(lines, also, a, found)
    ensures match Close(found, current, also)
      case Some(more) => LocksBefore(lines, also, b + 1, more)
      case None => Chosen(lines, a, b, also) && !Complete(lines, a, b)
  {
    CloseMeans(lines, also, a, b, found, current);
    hide Package, Chosen, Says, Close, Collected;
    match Close(found, current, also)
    case None =>
    case Some(more) =>
      forall x: nat, y: nat | a <= y <= b && Package(lines, x, y) ensures x == a && y == b { OnePackage(lines, a, b, x, y); }
      hide Lists, LocksAt;
      forall name, version ensures Lists(more, name, version) <==>
        exists x: nat, y: nat :: y < b + 1 && LocksAt(lines, also, x, y, name, version)
      {
        AddPackage(lines, also, a, b, name, version);
        assert Lists(more, name, version) <==> Lists(found, name, version) || LocksAt(lines, also, a, b, name, version);
      }
  }

  lemma AddPackage(lines: seq<LockLine>, also: set<string>, a: nat, b: nat, name: string, version: string)
    requires Package(lines, a, b)
    ensures (exists x: nat, y: nat :: y < b + 1 && LocksAt(lines, also, x, y, name, version)) <==>
      (exists x: nat, y: nat :: y < a && LocksAt(lines, also, x, y, name, version)) || LocksAt(lines, also, a, b, name, version)
  {
    hide Chosen, Says;
    if x: nat, y: nat :| y < b + 1 && LocksAt(lines, also, x, y, name, version) {
      if y >= a { OnePackage(lines, a, b, x, y); }
    }
    assert a <= b;
  }

  lemma {:induction false} LockReads(lines: seq<LockLine>, also: set<string>, a: nat, b: nat, found: Lock, current: map<Key, string>)
    requires a <= b <= |lines| && (a > 0 ==> lines[a - 1].Header?) && forall k :: a <= k < b ==> !lines[k].Header?
    requires Collected(lines, a, b, current) && LocksBefore(lines, also, a, found)
    ensures match LockFrom(lines[b..], found, current, also)
      case Some(lock) => LocksBefore(lines, also, |lines| + 1, lock)
      case None => exists x: nat, y: nat :: Package(lines, x, y) && Chosen(lines, x, y, also) && !Complete(lines, x, y)
    decreases |lines| - b
  {
    hide Collected, LocksBefore, Close, Chosen, Complete;
    if b == |lines| {
      assert Package(lines, a, b);
      ClosedBefore(lines, also, a, b, found, current);
    } else {
      assert lines[b..][0] == lines[b] && lines[b..][1..] == lines[b + 1..];
      if lines[b].Header? {
        assert Package(lines, a, b);
        ClosedBefore(lines, also, a, b, found, current);
        var more := Close(found, current, also);
        if more.Some? {
          NothingYet(lines, b + 1);
          LockReads(lines, also, b + 1, b + 1, more.value, map[]);
        }
      } else {
        CollectedStep(lines, a, b, current);
        LockReads(lines, also, a, b + 1, found, if lines[b].Field? then current[lines[b].key := lines[b].value] else current);
      }
    }
  }

  lemma NothingYet(lines: seq<LockLine>, a: nat)
    ensures Collected(lines, a, a, map[])
  {
  }

  /** What a lock says, off its lines: exactly the versions of the packages that are wanted, unless one of them lacks its
      name or its version. */
  lemma LockMeans(lines: seq<LockLine>, also: set<string>)
    ensures match LockFrom(lines, map[], map[], also)
      case Some(lock) =>
        && (forall name, version :: Lists(lock, name, version) <==> Locks(lines, also, name, version))
        && forall x: nat, y: nat :: Package(lines, x, y) && Chosen(lines, x, y, also) ==> Complete(lines, x, y)
      case None => exists x: nat, y: nat :: Package(lines, x, y) && Chosen(lines, x, y, also) && !Complete(lines, x, y)
  {
    NothingYet(lines, 0);
    hide Collected, Chosen, Complete, Says, Lists, Locks;
    assert LocksBefore(lines, also, 0, map[]);
    LockReads(lines, also, 0, 0, map[], map[]);
    assert lines[0..] == lines;
    match LockFrom(lines, map[], map[], also)
    case None =>
    case Some(lock) =>
      forall name, version ensures Lists(lock, name, version) <==> Locks(lines, also, name, version) {
        AnyPackage(lines, also, name, version);
      }
  }

  lemma AnyPackage(lines: seq<LockLine>, also: set<string>, name: string, version: string)
    ensures Locks(lines, also, name, version) <==> exists x: nat, y: nat :: y < |lines| + 1 && LocksAt(lines, also, x, y, name, version)
  {
    hide Chosen, Says;
    if a: nat, b: nat :| LocksAt(lines, also, a, b, name, version) { assert b < |lines| + 1 && LocksAt(lines, also, a, b, name, version); }
  }

  // ------------------------------------------------------------------ classification

  /** An entry of `not_shipped_versions`: a list, or a value of the wrong type. */
  datatype Hidden = List(versions: seq<string>) | Malformed

  /** third-party-crates.json; `rows` are the crates of all groups, in order. */
  datatype Data = Data(rows: seq<string>, notShipped: set<string>, hidden: map<string, Hidden>, stdLock: map<string, string>, pin: string)

  function Elements(s: seq<string>): set<string> { set x | x in s }

  function InLock(lock: Lock, name: string): set<string> {
    if name in lock then Elements(lock[name]) else {}
  }

  function HiddenOf(d: Data, name: string): set<string> {
    if name in d.hidden && d.hidden[name].List? then Elements(d.hidden[name].versions) else {}
  }

  function StdOf(d: Data, name: string): set<string> {
    if name in d.stdLock then {d.stdLock[name]} else {}
  }

  /** `crate_versions`, as a set. */
  function CrateVersions(name: string, lock: Lock, d: Data): set<string> {
    (InLock(lock, name) - HiddenOf(d, name)) + StdOf(d, name)
  }

  datatype Problem =
    | Unclassified(name: string) | NotInLock(name: string) | Both(name: string) | BadEntry(name: string)
    | StaleEntry(name: string) | HidesShipped(name: string) | NoLock(name: string) | TwoRows(name: string) | Pins

  predicate Bad(d: Data, n: string)
    requires n in d.hidden
  {
    n !in d.rows || d.hidden[n].Malformed? || d.hidden[n].versions == []
  }

  predicate Repeats(s: seq<string>) {
    exists i, j :: 0 <= i < j < |s| && s[i] == s[j]
  }

  predicate Stale(d: Data, lock: Lock, n: string)
    requires n in d.hidden && d.hidden[n].List?
  {
    Repeats(d.hidden[n].versions) || !(HiddenOf(d, n) <= InLock(lock, n))
  }

  predicate Hides(d: Data, lock: Lock, n: string)
    requires n in d.hidden && d.hidden[n].List?
  {
    (n in d.stdLock && d.stdLock[n] in d.hidden[n].versions) || CrateVersions(n, lock, d) == {}
  }

  predicate Twice(d: Data, n: string) {
    exists i, j :: 0 <= i < j < |d.rows| && d.rows[i] == n == d.rows[j]
  }

  function OfLock(d: Data, lock: Lock): set<Problem> {
    (set n | n in lock && n !in d.rows && n !in d.notShipped :: Unclassified(n))
    + (set n | n in d.notShipped && n !in lock :: NotInLock(n))
    + (set n | n in d.notShipped && n in d.rows :: Both(n))
  }

  function OfEntries(d: Data, lock: Lock): set<Problem> {
    (set n | n in d.hidden && Bad(d, n) :: BadEntry(n))
    + (set n | n in d.hidden && !Bad(d, n) && Stale(d, lock, n) :: StaleEntry(n))
    + (set n | n in d.hidden && !Bad(d, n) && Hides(d, lock, n) :: HidesShipped(n))
  }

  function OfRows(d: Data, lock: Lock, pins: set<string>): set<Problem> {
    (set n | n in d.rows && n !in lock && n !in d.stdLock :: NoLock(n))
    + (set n | n in d.rows && Twice(d, n) :: TwoRows(n))
    + (if pins != {d.pin} then {Pins} else {})
  }

  /** `problems_in`. */
  function ProblemsIn(d: Data, lock: Lock, pins: set<string>): set<Problem> {
    OfLock(d, lock) + OfEntries(d, lock) + OfRows(d, lock, pins)
  }

  // ------------------------------------------------------------------ what no problem means

  /** Every lock package is either a row or known not to ship, and the other list has no leftovers. */
  ghost predicate Classified(d: Data, lock: Lock) {
    d.notShipped <= lock.Keys && forall n :: n in lock ==> (n in d.rows <==> n !in d.notShipped)
  }

  /** A hidden version is one the lock has, of a row that still shows another, and never the one std links. */
  ghost predicate GoodEntries(d: Data, lock: Lock) {
    forall n :: n in d.hidden ==>
      && n in d.rows && d.hidden[n].List? && d.hidden[n].versions != [] && !Repeats(d.hidden[n].versions)
      && HiddenOf(d, n) <= InLock(lock, n) && HiddenOf(d, n) !! StdOf(d, n)
      && CrateVersions(n, lock, d) != {}
  }

  ghost predicate GoodRows(d: Data, lock: Lock) {
    && (forall i, j :: 0 <= i < j < |d.rows| ==> d.rows[i] != d.rows[j])
    && forall n :: n in d.rows ==> n in lock || n in d.stdLock
  }

  lemma LockProblems(d: Data, lock: Lock)
    requires GoodRows(d, lock)
    ensures OfLock(d, lock) == {} <==> Classified(d, lock) && forall n :: n in d.notShipped ==> n !in d.rows
  {
    if OfLock(d, lock) == {} {
      forall n | n in d.notShipped ensures n in lock && n !in d.rows {
        assert NotInLock(n) !in OfLock(d, lock) && Both(n) !in OfLock(d, lock);
      }
      forall n | n in lock && n !in d.rows ensures n in d.notShipped { assert Unclassified(n) !in OfLock(d, lock); }
    }
  }

  lemma EntryProblem(d: Data, lock: Lock, n: string)
    requires n in d.hidden && !Bad(d, n)
    ensures !Stale(d, lock, n) && !Hides(d, lock, n) <==>
      (!Repeats(d.hidden[n].versions) && HiddenOf(d, n) <= InLock(lock, n) && HiddenOf(d, n) !! StdOf(d, n) && CrateVersions(n, lock, d) != {})
  {
    hide Repeats, CrateVersions, InLock;
  }

  lemma EntryProblems(d: Data, lock: Lock)
    ensures OfEntries(d, lock) == {} <==> GoodEntries(d, lock)
  {
    forall n | n in d.hidden && !Bad(d, n)
      ensures !Stale(d, lock, n) && !Hides(d, lock, n) <==>
        (!Repeats(d.hidden[n].versions) && HiddenOf(d, n) <= InLock(lock, n) && HiddenOf(d, n) !! StdOf(d, n) && CrateVersions(n, lock, d) != {})
    {
      EntryProblem(d, lock, n);
    }
    hide Stale, Hides, Repeats, CrateVersions, InLock, HiddenOf, StdOf;
    if OfEntries(d, lock) == {} {
      forall n | n in d.hidden ensures !Bad(d, n) && !Stale(d, lock, n) && !Hides(d, lock, n) {
        assert BadEntry(n) !in OfEntries(d, lock) && StaleEntry(n) !in OfEntries(d, lock) && HidesShipped(n) !in OfEntries(d, lock);
      }
    }
  }

  lemma RowProblems(d: Data, lock: Lock, pins: set<string>)
    ensures OfRows(d, lock, pins) == {} <==> GoodRows(d, lock) && pins == {d.pin}
  {
    if OfRows(d, lock, pins) == {} {
      assert Pins !in OfRows(d, lock, pins);
      forall n | n in d.rows ensures n in lock || n in d.stdLock { assert NoLock(n) !in OfRows(d, lock, pins); }
      forall i, j | 0 <= i < j < |d.rows| ensures d.rows[i] != d.rows[j] {
        assert TwoRows(d.rows[i]) !in OfRows(d, lock, pins);
      }
    }
  }

  /** No problem is reported exactly when the lists and the lock agree. */
  lemma NoProblem(d: Data, lock: Lock, pins: set<string>)
    ensures ProblemsIn(d, lock, pins) == {} <==> Classified(d, lock) && GoodEntries(d, lock) && GoodRows(d, lock) && pins == {d.pin}
  {
    var a, b, c := OfLock(d, lock), OfEntries(d, lock), OfRows(d, lock, pins);
    assert ProblemsIn(d, lock, pins) == a + b + c;
    RowProblems(d, lock, pins);
    EntryProblems(d, lock);
    if GoodRows(d, lock) { LockProblems(d, lock); }
    assert Classified(d, lock) ==> forall n :: n in d.notShipped ==> n in lock && n !in d.rows;
    hide *;
    assert a + b + c == {} <==> a == {} && b == {} && c == {};
  }

  /** Then the version cell of every row has something to show, and shows or hides each version of the locks. */
  lemma EveryRowHasVersions(d: Data, lock: Lock, pins: set<string>, n: string)
    requires Versioned(lock) && ProblemsIn(d, lock, pins) == {} && n in d.rows
    ensures CrateVersions(n, lock, d) != {}
    ensures CrateVersions(n, lock, d) + HiddenOf(d, n) == InLock(lock, n) + StdOf(d, n)
    ensures CrateVersions(n, lock, d) !! HiddenOf(d, n)
  {
    NoProblem(d, lock, pins);
    hide ProblemsIn;
    var all, hidden, std := InLock(lock, n), HiddenOf(d, n), StdOf(d, n);
    assert CrateVersions(n, lock, d) == (all - hidden) + std;
    if n in d.hidden {
      assert hidden <= all && hidden !! std;
    } else {
      assert hidden == {};
      if n in lock {
        assert lock[n][0] in all && lock[n][0] in CrateVersions(n, lock, d);
      } else {
        assert d.stdLock[n] in std && d.stdLock[n] in CrateVersions(n, lock, d);
      }
    }
  }

  // ------------------------------------------------------------------ the table

  datatype Crate = Crate(name: string, licence: Option<string>, copyright: Option<string>)

  /** `lead` and `trail` are the fixed rows, expanded. */
  datatype Group = Group(columns: seq<string>, lead: seq<seq<string>>, crates: seq<Crate>, trail: seq<seq<string>>)

  /** How the versions of a cell are ordered and joined. */
  type Cell = set<string> -> string

  function Cells(c: Crate, versions: string): seq<string> {
    [c.name, versions] + (if c.licence.Some? then [c.licence.value] else []) + (if c.copyright.Some? then [c.copyright.value] else [])
  }

  function CrateRows(crates: seq<Crate>, lock: Lock, d: Data, cell: Cell): Option<seq<seq<string>>> {
    if crates == [] then Some([])
    else
      var versions := CrateVersions(crates[0].name, lock, d);
      if versions == {} then None
      else
        match CrateRows(crates[1..], lock, d, cell)
        case None => None
        case Some(rest) => Some([Cells(crates[0], cell(versions))] + rest)
  }

  function Onto(rows: seq<seq<string>>, more: Option<seq<seq<string>>>): Option<seq<seq<string>>> {
    match more case None => None case Some(rest) => Some(rows + rest)
  }

  lemma CrateRowsAt(crates: seq<Crate>, lock: Lock, d: Data, cell: Cell, i: nat, out: seq<seq<string>>)
    requires i < |crates|
    ensures var versions := CrateVersions(crates[i].name, lock, d);
      Onto(out, CrateRows(crates[i..], lock, d, cell)) ==
      if versions == {} then None
      else Onto(out + [Cells(crates[i], cell(versions))], CrateRows(crates[i + 1..], lock, d, cell))
  {
    hide CrateVersions, Cells;
    assert crates[i..][0] == crates[i] && crates[i..][1..] == crates[i + 1..];
    var rest := CrateRows(crates[i + 1..], lock, d, cell);
    if rest.Some? {
      var row := Cells(crates[i], cell(CrateVersions(crates[i].name, lock, d)));
      assert out + ([row] + rest.value) == out + [row] + rest.value;
    }
  }

  lemma CrateRowsEnds(lock: Lock, d: Data, cell: Cell, out: seq<seq<string>>, all: Option<seq<seq<string>>>)
    ensures Onto(out, CrateRows([], lock, d, cell)) == Some(out) && Onto([], all) == all
  {
    assert out + [] == out;
    if all.Some? { assert [] + all.value == all.value; }
  }

  /** `render_group`, row by row; None where it exits because a crate is in no lock. */
  method RenderGroup(g: Group, lock: Lock, d: Data, cell: Cell) returns (rows: Option<seq<seq<string>>>)
    ensures match CrateRows(g.crates, lock, d, cell)
            case None => rows == None
            case Some(middle) => rows == Some([g.columns] + g.lead + middle + g.trail)
  {
    hide *;
    var out: seq<seq<string>> := [];
    assert g.crates[0..] == g.crates && g.crates[|g.crates|..] == [];
    CrateRowsEnds(lock, d, cell, [], CrateRows(g.crates, lock, d, cell));
    for i := 0 to |g.crates|
      invariant CrateRows(g.crates, lock, d, cell) == Onto(out, CrateRows(g.crates[i..], lock, d, cell))
    {
      CrateRowsAt(g.crates, lock, d, cell, i, out);
      var crate := g.crates[i];
      var versions := CrateVersions(crate.name, lock, d);
      if versions == {} {
        return None;
      }
      out := out + [Cells(crate, cell(versions))];
    }
    CrateRowsEnds(lock, d, cell, out, None);
    rows := Some([g.columns] + g.lead + out + g.trail);
  }

  lemma {:induction false} RowsExist(crates: seq<Crate>, lock: Lock, d: Data, cell: Cell)
    requires forall i :: 0 <= i < |crates| ==> CrateVersions(crates[i].name, lock, d) != {}
    ensures CrateRows(crates, lock, d, cell).Some? && |CrateRows(crates, lock, d, cell).value| == |crates|
  {
    if crates != [] { RowsExist(crates[1..], lock, d, cell); }
  }

  /** A consistent tree never reaches the exit: each crate of a group gets its row. */
  lemma GroupRenders(crates: seq<Crate>, lock: Lock, d: Data, pins: set<string>, cell: Cell)
    requires Versioned(lock) && ProblemsIn(d, lock, pins) == {} && forall c :: c in crates ==> c.name in d.rows
    ensures CrateRows(crates, lock, d, cell).Some? && |CrateRows(crates, lock, d, cell).value| == |crates|
  {
    hide CrateVersions, ProblemsIn;
    forall i | 0 <= i < |crates| ensures CrateVersions(crates[i].name, lock, d) != {} {
      assert crates[i] in crates;
      EveryRowHasVersions(d, lock, pins, crates[i].name);
    }
    RowsExist(crates, lock, d, cell);
  }
}
