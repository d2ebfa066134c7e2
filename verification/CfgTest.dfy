/** `_top_level_args` and `_is_test_predicate` of ci/check-module-cycle.py: which `cfg` predicates mean test-only. */
module CfgTest {
  import opened Text

  // ------------------------------------------------------------------ the parser

  function After(depth: int, c: char): int {
    if c == '(' || c == '[' then depth + 1 else if c == ')' || c == ']' then depth - 1 else depth
  }

  /** `x` put in front of the first piece. */
  function Onto(x: string, pieces: seq<string>): (r: seq<string>)
    requires pieces != []
    ensures r != []
  {
    [x + pieces[0]] + pieces[1..]
  }

  lemma OntoNone(pieces: seq<string>)
    requires pieces != []
    ensures Onto([], pieces) == pieces
  {
    assert [] + pieces[0] == pieces[0];
    assert [pieces[0]] + pieces[1..] == pieces;
  }

  lemma OntoTwice(x: string, y: string, pieces: seq<string>)
    requires pieces != []
    ensures Onto(x, Onto(y, pieces)) == Onto(x + y, pieces)
  {
    assert x + (y + pieces[0]) == (x + y) + pieces[0];
  }

  /** The pieces between the commas at depth zero, as written. */
  function Split(s: string, depth: int): (r: seq<string>)
    ensures r != []
  {
    if s == [] then [[]]
    else if s[0] == ',' && depth == 0 then [[]] + Split(s[1..], depth)
    else Onto([s[0]], Split(s[1..], After(depth, s[0])))
  }

  /** Each piece stripped, empty ones dropped. */
  function Tidy(space: Space, pieces: seq<string>): seq<string>
  {
    if pieces == [] then []
    else
      var x := Strip(space, pieces[0]);
      (if x == [] then [] else [x]) + Tidy(space, pieces[1..])
  }

  function Args(space: Space, pred: string): seq<string> {
    Tidy(space, Split(pred, 0))
  }

  lemma SplitShort(s: string, depth: int, i: nat)
    requires i < |Split(s, depth)|
    ensures |Split(s, depth)[i]| <= |s|
  {
    if s != [] && !(s[0] == ',' && depth == 0) {
      SplitShort(s[1..], After(depth, s[0]), i);
    } else if s != [] && i > 0 {
      SplitShort(s[1..], depth, i - 1);
    }
  }

  lemma {:induction false} TidyShort(space: Space, pieces: seq<string>, n: nat, k: nat)
    requires k < |Tidy(space, pieces)| && forall i :: 0 <= i < |pieces| ==> |pieces[i]| <= n
    ensures |Tidy(space, pieces)[k]| <= n
    decreases |pieces|
  {
    var skipped := if Strip(space, pieces[0]) == [] then 0 else 1;
    if k >= skipped { TidyShort(space, pieces[1..], n, k - skipped); }
  }

  /** An argument is no longer than the predicate it comes from. */
  lemma ArgsShort(space: Space, pred: string)
    ensures forall x :: x in Args(space, pred) ==> |x| <= |pred|
  {
    forall i | 0 <= i < |Split(pred, 0)| ensures |Split(pred, 0)[i]| <= |pred| { SplitShort(pred, 0, i); }
    forall k | 0 <= k < |Args(space, pred)| ensures |Args(space, pred)[k]| <= |pred| {
      TidyShort(space, Split(pred, 0), |pred|, k);
    }
  }

  /** The text between the parentheses of `all(..)`, when the whole predicate is one: `all\s*\((.*)\)`. */
  predicate IsAll(space: Space, p: string) {
    |p| >= 5 && p[..3] == "all" && p[|p| - 1] == ')' &&
    var rest := StripLeft(space, p[3..]); |rest| >= 2 && rest[0] == '('
  }

  function AllBody(space: Space, p: string): (r: string)
    requires IsAll(space, p)
    ensures |r| < |p|
  {
    var rest := StripLeft(space, p[3..]);
    rest[1..|rest| - 1]
  }

  predicate IsTestPredicate(space: Space, pred: string)
    decreases |pred|
  {
    var p := Strip(space, pred);
    p == "test" ||
    (IsAll(space, p) &&
     var body := AllBody(space, p);
     ArgsShort(space, body);
     exists x :: x in Args(space, body) && IsTestPredicate(space, x))
  }

  lemma SplitAt(pred: string, i: nat, depth: int)
    requires i < |pred|
    ensures Split(pred[i..], depth) ==
      if pred[i] == ',' && depth == 0 then [[]] + Split(pred[i + 1..], depth)
      else Onto([pred[i]], Split(pred[i + 1..], After(depth, pred[i])))
  {
    assert pred[i..][1..] == pred[i + 1..];
  }

  lemma OntoComma(x: string, rest: seq<string>)
    ensures Onto(x, [[]] + rest) == [x] + rest
  {
    assert x + [] == x;
    assert ([[]] + rest)[1..] == rest;
  }

  lemma Associate(x: seq<string>, y: seq<string>, z: seq<string>)
    ensures x + (y + z) == (x + y) + z
  {
  }

  lemma TidyAt(space: Space, pieces: seq<string>, j: nat)
    requires j < |pieces|
    ensures Tidy(space, pieces[j..]) ==
      (if Strip(space, pieces[j]) == [] then [] else [Strip(space, pieces[j])]) + Tidy(space, pieces[j + 1..])
  {
    assert pieces[j..][1..] == pieces[j + 1..];
  }

  lemma TidyNone(space: Space, pred: string)
    ensures Tidy(space, []) == [] && Args(space, pred) == Tidy(space, Split(pred, 0))
  {
  }

  /** `_top_level_args`: its pieces stripped, empty ones dropped. */
  method TopLevelArgs(space: Space, pred: string) returns (out: seq<string>)
    ensures out == Args(space, pred)
  {
    hide *;
    TidyNone(space, pred);
    var pieces := Pieces(pred);
    out := [];
    var j := 0;
    assert pieces[0..] == pieces;
    while j < |pieces|
      invariant 0 <= j <= |pieces|
      invariant out + Tidy(space, pieces[j..]) == Args(space, pred)
    {
      TidyAt(space, pieces, j);
      var x := Strip(space, pieces[j]);
      if x != [] {
        Associate(out, [x], Tidy(space, pieces[j + 1..]));
        out := out + [x];
      }
      j := j + 1;
    }
    assert pieces[j..] == [];
  }

  /** Its loop over the characters. */
  method Pieces(pred: string) returns (pieces: seq<string>)
    ensures pieces == Split(pred, 0)
  {
    hide Split, Onto, After;
    var depth, cur := 0, [];
    pieces := [];
    var i := 0;
    assert pred[0..] == pred;
    OntoNone(Split(pred, 0));
    while i < |pred|
      invariant 0 <= i <= |pred|
      invariant Split(pred, 0) == pieces + Onto(cur, Split(pred[i..], depth))
    {
      var c := pred[i];
      SplitAt(pred, i, depth);
      ghost var rest := Split(pred[i + 1..], After(depth, c));
      if c == ',' && depth == 0 {
        OntoComma(cur, Split(pred[i + 1..], depth));
        Associate(pieces, [cur], Split(pred[i + 1..], depth));
        pieces := pieces + [cur];
        cur := [];
        OntoNone(Split(pred[i + 1..], depth));
      } else {
        OntoTwice(cur, [c], rest);
        cur := cur + [c];
        depth := After(depth, c);
      }
      i := i + 1;
    }
    assert pred[i..] == [];
    OntoEnd(cur, depth);
    pieces := pieces + [cur];
  }

  lemma OntoEnd(cur: string, depth: int)
    ensures Onto(cur, Split([], depth)) == [cur]
  {
    assert cur + [] == cur;
  }

  // ------------------------------------------------------------------ predicate trees

  datatype Cfg = Test | Name(name: string) | All(parts: seq<Cfg>) | Any(parts: seq<Cfg>) | Not(part: Cfg)

  function Print(t: Cfg): string {
    match t
    case Test => "test"
    case Name(name) => name
    case All(parts) => "all(" + PrintList(parts) + ")"
    case Any(parts) => "any(" + PrintList(parts) + ")"
    case Not(part) => "not(" + Print(part) + ")"
  }

  function PrintList(parts: seq<Cfg>): string {
    if parts == [] then ""
    else if |parts| == 1 then Print(parts[0])
    else Print(parts[0]) + ("," + ([' '] + PrintList(parts[1..])))
  }

  /** A name has no bracket or comma in it, does not begin or end in space, and is not the word `test`. */
  ghost predicate PlainName(space: Space, name: string) {
    && name != [] && name != "test" && !space(name[0]) && !space(name[|name| - 1])
    && forall c :: c in name ==> c !in "()[],"
  }

  ghost predicate Named(space: Space, t: Cfg) {
    match t
    case Test => true
    case Name(name) => PlainName(space, name)
    case All(parts) => forall x :: x in parts ==> Named(space, x)
    case Any(parts) => forall x :: x in parts ==> Named(space, x)
    case Not(part) => Named(space, part)
  }

  /** A space is a space; brackets, the comma and the letters of the keywords are not. */
  ghost predicate Sane(space: Space) {
    space(' ') && forall c :: c in "()[],alnyotes" ==> !space(c)
  }

  /** What `cfg` means: `env` gives the names, `test` whether the build is a test build. */
  predicate Holds(t: Cfg, env: string -> bool, test: bool) {
    match t
    case Test => test
    case Name(name) => env(name)
    case All(parts) => forall i :: 0 <= i < |parts| ==> Holds(parts[i], env, test)
    case Any(parts) => exists i :: 0 <= i < |parts| && Holds(parts[i], env, test)
    case Not(part) => !Holds(part, env, test)
  }

  /** `test` itself, or an `all` with such a part. */
  predicate TestOnly(t: Cfg) {
    t.Test? || (t.All? && exists i :: 0 <= i < |t.parts| && TestOnly(t.parts[i]))
  }

  /** Such a predicate is false in every build without `test`. */
  lemma {:induction false} TestOnlyIsOff(t: Cfg, env: string -> bool)
    requires TestOnly(t)
    ensures !Holds(t, env, false)
  {
    if t.All? {
      var i :| 0 <= i < |t.parts| && TestOnly(t.parts[i]);
      TestOnlyIsOff(t.parts[i], env);
    }
  }

  // ------------------------------------------------------------------ printing, then parsing

  /** The depth after `s`, or none when a comma stands at depth zero. */
  datatype Quiet = Noisy | Quiet(depth: int)

  function Walk(s: string, depth: int): Quiet {
    if s == [] then Quiet(depth)
    else if s[0] == ',' && depth == 0 then Noisy
    else Walk(s[1..], After(depth, s[0]))
  }

  lemma {:induction false} WalkJoin(x: string, y: string, depth: int)
    ensures Walk(x + y, depth) == match Walk(x, depth) case Noisy => Noisy case Quiet(d) => Walk(y, d)
    decreases |x|
  {
    if x == [] {
      assert x + y == y;
    } else {
      assert (x + y)[1..] == x[1..] + y;
      WalkJoin(x[1..], y, After(depth, x[0]));
    }
  }

  lemma {:induction false} WalkPlain(s: string, depth: int)
    requires forall c :: c in s ==> c !in "()[],"
    ensures Walk(s, depth) == Quiet(depth)
    decreases |s|
  {
    if s != [] {
      assert s[0] in s;
      WalkPlain(s[1..], depth);
    }
  }

  lemma WalkOpen(depth: int)
    ensures Walk("all(", depth) == Walk("any(", depth) == Walk("not(", depth) == Quiet(depth + 1)
    ensures Walk(")", depth) == Quiet(depth - 1)
    ensures depth != 0 ==> Walk(",", depth) == Quiet(depth)
    ensures Walk([' '], depth) == Quiet(depth)
  {
    WalkStep("all(", depth); WalkStep("ll(", depth); WalkStep("l(", depth); WalkStep("(", depth);
    WalkStep("any(", depth); WalkStep("ny(", depth); WalkStep("y(", depth);
    WalkStep("not(", depth); WalkStep("ot(", depth); WalkStep("t(", depth);
    WalkStep(")", depth);
    WalkStep(",", depth); WalkStep([' '], depth);
  }

  lemma WalkStep(s: string, depth: int)
    requires s != []
    ensures Walk(s, depth) == if s[0] == ',' && depth == 0 then Noisy else Walk(s[1..], After(depth, s[0]))
  {
  }

  /** A printed predicate shows no comma at the depth it stands at and comes back to it. */
  lemma {:induction false} WalkPrint(space: Space, t: Cfg, depth: nat)
    requires Named(space, t)
    ensures Walk(Print(t), depth) == Quiet(depth)
    decreases t, 1
  {
    WalkOpen(depth);
    WalkOpen(depth + 1);
    match t
    case Test => WalkPlain("test", depth);
    case Name(name) => WalkPlain(name, depth);
    case All(parts) => WalkList(space, parts, depth + 1); WalkWrapped("all(", PrintList(parts), depth);
    case Any(parts) => WalkList(space, parts, depth + 1); WalkWrapped("any(", PrintList(parts), depth);
    case Not(part) => WalkPrint(space, part, depth + 1); WalkWrapped("not(", Print(part), depth);
  }

  lemma WalkWrapped(open: string, body: string, depth: nat)
    requires Walk(open, depth) == Quiet(depth + 1) && Walk(body, depth + 1) == Quiet(depth + 1)
    ensures Walk(open + body + ")", depth) == Quiet(depth)
  {
    WalkOpen(depth + 1);
    WalkJoin(open + body, ")", depth);
    WalkJoin(open, body, depth);
  }

  lemma {:induction false} WalkList(space: Space, parts: seq<Cfg>, depth: nat)
    requires depth > 0 && forall x :: x in parts ==> Named(space, x)
    ensures Walk(PrintList(parts), depth) == Quiet(depth)
    decreases parts, 0
  {
    if |parts| > 0 {
      WalkPrint(space, parts[0], depth);
      if |parts| > 1 {
        WalkList(space, parts[1..], depth);
        WalkOpen(depth);
        var tail := [' '] + PrintList(parts[1..]);
        WalkJoin(Print(parts[0]), "," + tail, depth);
        WalkJoin(",", tail, depth);
        WalkJoin([' '], PrintList(parts[1..]), depth);
      }
    }
  }

  /** A quiet stretch stays in one piece. */
  lemma {:induction false} SplitQuiet(x: string, y: string, depth: int)
    requires Walk(x, depth).Quiet?
    ensures Split(x + y, depth) == Onto(x, Split(y, Walk(x, depth).depth))
    decreases |x|
  {
    if x == [] {
      assert x + y == y;
      OntoNone(Split(y, depth));
    } else {
      assert (x + y)[1..] == x[1..] + y;
      SplitQuiet(x[1..], y, After(depth, x[0]));
      OntoTwice([x[0]], x[1..], Split(y, Walk(x, depth).depth));
      assert [x[0]] + x[1..] == x;
    }
  }

  // ------------------------------------------------------------------ the round trip

  lemma {:induction false} StripTight(space: Space, s: string)
    requires s != [] && !space(s[0]) && !space(s[|s| - 1])
    ensures Strip(space, s) == s && Strip(space, [' '] + s) == (if space(' ') then s else [' '] + s)
  {
    assert ([' '] + s)[1..] == s;
  }

  /** A printed predicate begins and ends in something other than space. */
  lemma PrintTight(space: Space, t: Cfg)
    requires Sane(space) && Named(space, t)
    ensures var p := Print(t); p != [] && !space(p[0]) && !space(p[|p| - 1])
  {
    assert 'a' in "()[],alnyotes" && 'n' in "()[],alnyotes" && 't' in "()[],alnyotes" && ')' in "()[],alnyotes";
    hide PrintList;
    match t
    case Test =>
    case Name(_) =>
    case All(parts) => Ends("all(", PrintList(parts));
    case Any(parts) => Ends("any(", PrintList(parts));
    case Not(part) => Ends("not(", Print(part));
  }

  lemma Ends(open: string, body: string)
    requires open != []
    ensures var p := open + body + ")"; p != [] && p[0] == open[0] && p[|p| - 1] == ')'
  {
  }

  function Prints(parts: seq<Cfg>): (r: seq<string>)
    ensures |r| == |parts| && forall i :: 0 <= i < |parts| ==> r[i] == Print(parts[i])
  {
    seq(|parts|, i requires 0 <= i < |parts| => Print(parts[i]))
  }

  /** A quiet stretch before a comma, or at the end, is one piece. */
  lemma FirstPiece(x: string, tail: string)
    requires Walk(x, 0) == Quiet(0)
    ensures Split(x, 0) == [x] && Split(x + ("," + tail), 0) == [x] + Split(tail, 0)
  {
    SplitQuiet(x, "", 0);
    assert x + "" == x;
    OntoEnd(x, 0);
    SplitQuiet(x, "," + tail, 0);
    assert ("," + tail)[1..] == tail;
    OntoComma(x, Split(tail, 0));
  }

  lemma TidyCons(space: Space, x: string, rest: seq<string>)
    requires Strip(space, x) != []
    ensures Tidy(space, [x] + rest) == [Strip(space, x)] + Tidy(space, rest) && Tidy(space, [x]) == [Strip(space, x)]
  {
    assert ([x] + rest)[1..] == rest;
    assert [x][1..] == [];
  }

  /** One printed part, with or without the space after a comma. */
  lemma PartPiece(space: Space, t: Cfg, tail: string)
    requires Sane(space) && Named(space, t)
    ensures var p := Print(t);
      && Tidy(space, Split(p, 0)) == [p] && Tidy(space, Split([' '] + p, 0)) == [p]
      && Tidy(space, Split(p + ("," + tail), 0)) == [p] + Tidy(space, Split(tail, 0))
      && Tidy(space, Split(([' '] + p) + ("," + tail), 0)) == [p] + Tidy(space, Split(tail, 0))
  {
    hide Split, Tidy, Strip, Walk, Named, Print;
    var p := Print(t);
    PrintTight(space, t);
    StripTight(space, p);
    WalkPrint(space, t, 0);
    WalkStep([' '] + p, 0);
    assert ([' '] + p)[1..] == p;
    FirstPiece(p, tail);
    FirstPiece([' '] + p, tail);
    TidyCons(space, p, Split(tail, 0));
    TidyCons(space, [' '] + p, Split(tail, 0));
  }

  lemma PrintsCons(parts: seq<Cfg>)
    requires parts != []
    ensures Prints(parts) == [Print(parts[0])] + Prints(parts[1..])
  {
    hide Print;
  }

  lemma PrintListIs(parts: seq<Cfg>)
    requires parts != []
    ensures var p := Print(parts[0]);
      if |parts| == 1 then PrintList(parts) == p && Prints(parts) == [p]
      else PrintList(parts) == p + ("," + ([' '] + PrintList(parts[1..]))) && Prints(parts) == [p] + Prints(parts[1..])
  {
    hide Print;
    if |parts| > 1 { PrintsCons(parts); }
  }

  lemma NoArgs(space: Space)
    ensures Args(space, PrintList([])) == Prints([])
  {
    var one: seq<string> := [[]];
    assert one[1..] == [];
  }

  /** Splitting a printed list gives back the printed parts, also behind the space that follows a comma. */
  lemma {:induction false} ArgsOfList(space: Space, parts: seq<Cfg>)
    requires Sane(space) && forall x :: x in parts ==> Named(space, x)
    ensures Args(space, PrintList(parts)) == Prints(parts)
    ensures parts != [] ==> Tidy(space, Split([' '] + PrintList(parts), 0)) == Prints(parts)
    decreases |parts|
  {
    hide *;
    if parts == [] {
      NoArgs(space);
    } else {
      TidyNone(space, PrintList(parts));
      PrintListIs(parts);
      var p := Print(parts[0]);
      if |parts| == 1 {
        PartPiece(space, parts[0], "");
      } else {
        ArgsOfList(space, parts[1..]);
        var tail := [' '] + PrintList(parts[1..]);
        PartPiece(space, parts[0], tail);
        assert ([' '] + p) + ("," + tail) == [' '] + (p + ("," + tail));
      }
    }
  }

  lemma AllPrinted(space: Space, parts: seq<Cfg>)
    requires Sane(space)
    ensures var p := Print(All(parts)); IsAll(space, p) && AllBody(space, p) == PrintList(parts)
  {
    var p := Print(All(parts));
    assert '(' in "()[],alnyotes";
    assert p[3..] == "(" + PrintList(parts) + ")";
    assert p[..3] == "all";
  }

  lemma NotAll(space: Space, t: Cfg)
    requires Sane(space) && Named(space, t) && !t.All?
    ensures !IsAll(space, Print(t)) && (TestOnly(t) <==> Print(t) == "test")
  {
    match t
    case Test =>
    case Name(name) => assert name[|name| - 1] in name;
    case Any(parts) => assert Print(t)[..3] == "any";
    case Not(part) => assert Print(t)[..3] == "not";
  }

  lemma NotTestWord(space: Space, t: Cfg)
    requires Named(space, t) && !t.Test?
    ensures Print(t) != "test"
  {
  }

  lemma UnfoldTestPredicate(space: Space, p: string)
    requires Strip(space, p) == p
    ensures IsTestPredicate(space, p) <==>
      p == "test" || (IsAll(space, p) && exists x :: x in Args(space, AllBody(space, p)) && IsTestPredicate(space, x))
  {
  }

  lemma AnyArg(space: Space, t: Cfg)
    requires t.All? && forall i :: 0 <= i < |t.parts| ==> (IsTestPredicate(space, Print(t.parts[i])) <==> TestOnly(t.parts[i]))
    ensures (exists x :: x in Prints(t.parts) && IsTestPredicate(space, x)) <==> TestOnly(t)
  {
    hide IsTestPredicate, Print;
    if x :| x in Prints(t.parts) && IsTestPredicate(space, x) {
      var i :| 0 <= i < |t.parts| && Prints(t.parts)[i] == x;
      assert TestOnly(t.parts[i]);
    }
    if TestOnly(t) {
      var i :| 0 <= i < |t.parts| && TestOnly(t.parts[i]);
      assert Prints(t.parts)[i] in Prints(t.parts);
    }
  }

  lemma AllNamed(space: Space, t: Cfg)
    requires Named(space, t) && t.All?
    ensures forall x :: x in t.parts ==> Named(space, x)
  {
  }

  /** On a printed predicate the parser says exactly whether it is test-only. */
  lemma {:induction false} ParsesTestOnly(space: Space, t: Cfg)
    requires Sane(space) && Named(space, t)
    ensures IsTestPredicate(space, Print(t)) <==> TestOnly(t)
  {
    PrintTight(space, t);
    StripTight(space, Print(t));
    UnfoldTestPredicate(space, Print(t));
    if t.All? { AllNamed(space, t); }
    hide *;
    if t.All? {
      NotTestWord(space, t);
      AllPrinted(space, t.parts);
      ArgsOfList(space, t.parts);
      forall i | 0 <= i < |t.parts|
        ensures IsTestPredicate(space, Print(t.parts[i])) <==> TestOnly(t.parts[i])
      {
        ParsesTestOnly(space, t.parts[i]);
      }
      AnyArg(space, t);
    } else {
      NotAll(space, t);
    }
  }

  /** So what the parser accepts holds in no configuration that a production build can have. */
  lemma AcceptedIsOff(space: Space, t: Cfg, env: string -> bool)
    requires Sane(space) && Named(space, t) && IsTestPredicate(space, Print(t))
    ensures !Holds(t, env, false)
  {
    ParsesTestOnly(space, t);
    TestOnlyIsOff(t, env);
  }

  /** The converse fails: a predicate can be off in every such build without the parser noticing. */
  lemma OffButNotAccepted(space: Space, env: string -> bool)
    requires Sane(space)
    ensures !Holds(Any([Test, Test]), env, false) && !IsTestPredicate(space, Print(Any([Test, Test])))
  {
    ParsesTestOnly(space, Any([Test, Test]));
  }
}
