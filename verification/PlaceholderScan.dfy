/** The accounting of `scan` in ci/check-placeholders.py: counters and exemptions, function by function. */
module PlaceholderScan {
  import opened Options

  /**
   * What the patterns of `scan` say of one line. `watched` is false for dropped lines and definitions,
   * `counter` for dropped lines.
   */
  datatype Line = Line(watched: bool, spinner: bool, absent: bool, counter: bool, reasoned: bool, bare: bool)

  /** First and last line of a function, counted from 1. */
  type Span = (nat, nat)
  /** None at module level. */
  type Region = Option<Span>

  predicate Contains(s: Span, number: nat) { s.0 <= number <= s.1 }

  function Width(s: Span): int { s.1 - s.0 }

  /** `region_of`: of the spans that contain the line, the first of the shortest. */
  function RegionOf(number: nat, spans: seq<Span>): Region
    decreases |spans|
  {
    if spans == [] then None
    else
      var best := RegionOf(number, spans[..|spans| - 1]);
      var s := spans[|spans| - 1];
      if Contains(s, number) && (best.None? || Width(s) < Width(best.value)) then Some(s) else best
  }

  /** The region is a function around the line, and no function around it is shorter. */
  lemma {:induction false} RegionIsInnermost(number: nat, spans: seq<Span>)
    ensures RegionOf(number, spans).None? <==> forall s :: s in spans ==> !Contains(s, number)
    ensures match RegionOf(number, spans)
            case None => true
            case Some(r) => r in spans && Contains(r, number) && forall s :: s in spans && Contains(s, number) ==> Width(r) <= Width(s)
    decreases |spans|
  {
    if spans != [] {
      var front := spans[..|spans| - 1];
      RegionIsInnermost(number, front);
      assert spans == front + [spans[|spans| - 1]];
    }
  }

  const ABOVE: nat := 3

  /** The lines that are searched for counters and exemptions. */
  function Window(region: Region, number: nat): Span {
    match region
    case Some(s) => s
    case None => (if number > ABOVE then number - ABOVE else 1, number)
  }

  /** At module level the window is the line and the three above it, as far as there are any. */
  lemma WindowLines(number: nat, k: nat)
    requires number > 0
    ensures Window(None, number).0 <= k <= Window(None, number).1 <==> 1 <= k <= number <= k + 3
  {
  }

  /** How many of the lines `lo..hi` are of a kind; lines are counted from 1. */
  function Count(lines: seq<Line>, kind: Line -> bool, lo: nat, hi: nat): nat
    decreases hi
  {
    if hi < lo || hi == 0 then 0
    else Count(lines, kind, lo, hi - 1) + (if hi <= |lines| && kind(lines[hi - 1]) then 1 else 0)
  }

  function Within(lines: seq<Line>, kind: Line -> bool, w: Span): nat { Count(lines, kind, w.0, w.1) }

  function Counters(lines: seq<Line>, w: Span): nat { Within(lines, (l: Line) => l.counter, w) }
  function Reasoned(lines: seq<Line>, w: Span): nat { Within(lines, (l: Line) => l.reasoned, w) }
  function Bare(lines: seq<Line>, w: Span): bool { Within(lines, (l: Line) => l.bare, w) > 0 }

  datatype Verdict = Counted | Exempt | NoReason | Unaccounted

  /** Counters and exemptions already given to spinners. */
  type Spent = map<Region, (nat, nat)>

  function Used(spent: Spent, r: Region): (nat, nat) {
    if r in spent then spent[r] else (0, 0)
  }

  /** The verdict on a watched line, and what is spent after it. */
  function Judge(lines: seq<Line>, spans: seq<Span>, number: nat, spent: Spent): (Verdict, Spent)
    requires 1 <= number <= |lines|
  {
    var line := lines[number - 1];
    var region := RegionOf(number, spans);
    var w := Window(region, number);
    var c, e, bare := Counters(lines, w), Reasoned(lines, w), Bare(lines, w);
    var (cUsed, eUsed) := Used(spent, region);
    if line.spinner then
      if cUsed < c then (Counted, spent[region := (cUsed + 1, eUsed)])
      else if eUsed < e then (Exempt, spent[region := (cUsed, eUsed + 1)])
      else (if bare then NoReason else Unaccounted, spent)
    else if line.absent then (if e > 0 then Exempt else if bare then NoReason else Unaccounted, spent)
    else (if c > 0 then Counted else if e > 0 then Exempt else if bare then NoReason else Unaccounted, spent)
  }

  datatype State = State(out: seq<(nat, Verdict)>, spent: Spent)

  /** After the first `n` lines. */
  function After(lines: seq<Line>, spans: seq<Span>, n: nat): State
    requires n <= |lines|
  {
    if n == 0 then State([], map[])
    else
      var s := After(lines, spans, n - 1);
      if !lines[n - 1].watched then s
      else
        var (verdict, spent) := Judge(lines, spans, n, s.spent);
        State(s.out + [(n, verdict)], spent)
  }

  // ------------------------------------------------------------------ one line

  /** Some line of the window is of this kind. */
  ghost predicate Shows(lines: seq<Line>, kind: Line -> bool, w: Span) {
    exists k :: 0 <= k < |lines| && w.0 <= k + 1 <= w.1 && kind(lines[k])
  }

  lemma {:induction false} CountShows(lines: seq<Line>, kind: Line -> bool, lo: nat, hi: nat)
    ensures Count(lines, kind, lo, hi) > 0 <==> Shows(lines, kind, (lo, hi))
    decreases hi
  {
    if lo <= hi && hi > 0 {
      CountShows(lines, kind, lo, hi - 1);
      if k :| 0 <= k < |lines| && lo <= k + 1 <= hi && kind(lines[k]) {
        assert k + 1 == hi || (lo <= k + 1 <= hi - 1 && kind(lines[k]));
      }
      if Shows(lines, kind, (lo, hi - 1)) {
        var k :| 0 <= k < |lines| && lo <= k + 1 <= hi - 1 && kind(lines[k]);
        assert kind(lines[k]);
      }
    }
  }

  /** What a watched line gets that is no spinner: an absence must be excused, anything else counted or excused. */
  ghost predicate PlainVerdict(lines: seq<Line>, w: Span, absent: bool, v: Verdict) {
    && (v == Counted <==> !absent && Shows(lines, (l: Line) => l.counter, w))
    && (v == Exempt <==> v != Counted && Shows(lines, (l: Line) => l.reasoned, w))
    && (v == NoReason <==> v != Counted && v != Exempt && Shows(lines, (l: Line) => l.bare, w))
  }

  /** The report of a watched line that is no spinner; it takes nothing from the spinners. */
  lemma PlainLine(lines: seq<Line>, spans: seq<Span>, n: nat)
    requires 1 <= n <= |lines| && lines[n - 1].watched && !lines[n - 1].spinner
    ensures var s, s' := After(lines, spans, n - 1), After(lines, spans, n);
      s'.spent == s.spent && exists v :: s'.out == s.out + [(n, v)] && PlainVerdict(lines, Window(RegionOf(n, spans), n), lines[n - 1].absent, v)
  {
    var w := Window(RegionOf(n, spans), n);
    CountShows(lines, (l: Line) => l.counter, w.0, w.1);
    CountShows(lines, (l: Line) => l.reasoned, w.0, w.1);
    CountShows(lines, (l: Line) => l.bare, w.0, w.1);
    hide Count, Shows, RegionOf, Window;
    var v := Judge(lines, spans, n, After(lines, spans, n - 1).spent).0;
    assert PlainVerdict(lines, w, lines[n - 1].absent, v);
  }

  /** A spinner that is neither counted nor excused is told whether a mark without a reason stands in its window. */
  lemma RefusedSpinner(lines: seq<Line>, spans: seq<Span>, n: nat, spent: Spent)
    requires 1 <= n <= |lines| && lines[n - 1].spinner && !Satisfied(Judge(lines, spans, n, spent).0)
    ensures Judge(lines, spans, n, spent).0 == NoReason <==> Shows(lines, (l: Line) => l.bare, Window(RegionOf(n, spans), n))
  {
    var w := Window(RegionOf(n, spans), n);
    CountShows(lines, (l: Line) => l.bare, w.0, w.1);
    hide Count, Shows, RegionOf, Window;
  }

  // ------------------------------------------------------------------ the accounting

  /** Of the first `n` lines, the watched spinner lines whose innermost function is `r`. */
  function Spinners(lines: seq<Line>, spans: seq<Span>, r: Span, n: nat): nat
    requires n <= |lines|
  {
    if n == 0 then 0
    else Spinners(lines, spans, r, n - 1)
         + (if lines[n - 1].watched && lines[n - 1].spinner && RegionOf(n, spans) == Some(r) then 1 else 0)
  }

  predicate Satisfied(v: Verdict) { v == Counted || v == Exempt }

  /** The spinner lines of the function that got no satisfying verdict. */
  function Unsatisfied(lines: seq<Line>, spans: seq<Span>, r: Span, out: seq<(nat, Verdict)>): nat {
    if out == [] then 0
    else
      var (number, verdict) := out[|out| - 1];
      Unsatisfied(lines, spans, r, out[..|out| - 1])
      + (if 1 <= number <= |lines| && lines[number - 1].spinner && RegionOf(number, spans) == Some(r) && !Satisfied(verdict) then 1 else 0)
  }

  function Min(a: int, b: int): int { if a < b then a else b }
  function Excess(a: int, b: int): nat { if a > b then a - b else 0 }

  lemma UnsatisfiedStep(lines: seq<Line>, spans: seq<Span>, r: Span, out: seq<(nat, Verdict)>, number: nat, v: Verdict)
    requires 1 <= number <= |lines|
    ensures Unsatisfied(lines, spans, r, out + [(number, v)]) ==
      Unsatisfied(lines, spans, r, out) + (if lines[number - 1].spinner && RegionOf(number, spans) == Some(r) && !Satisfied(v) then 1 else 0)
  {
    assert (out + [(number, v)])[..|out|] == out;
  }

  /** A spinner of the function takes a counter, else an exemption, else nothing. */
  lemma JudgeSpends(lines: seq<Line>, spans: seq<Span>, r: Span, number: nat, spent: Spent)
    requires 1 <= number <= |lines| && lines[number - 1].spinner && RegionOf(number, spans) == Some(r)
    ensures var (verdict, after) := Judge(lines, spans, number, spent);
      var (c, e) := Used(spent, Some(r));
      && (c < Counters(lines, r) ==> verdict == Counted && Used(after, Some(r)) == (c + 1, e))
      && (c >= Counters(lines, r) && e < Reasoned(lines, r) ==> verdict == Exempt && Used(after, Some(r)) == (c, e + 1))
      && (c >= Counters(lines, r) && e >= Reasoned(lines, r) ==> !Satisfied(verdict) && Used(after, Some(r)) == (c, e))
  {
    hide RegionOf, Counters, Reasoned, Bare;
  }

  /** Any other line leaves alone what the function has spent. */
  lemma JudgeKeeps(lines: seq<Line>, spans: seq<Span>, r: Span, number: nat, spent: Spent)
    requires 1 <= number <= |lines| && !(lines[number - 1].spinner && RegionOf(number, spans) == Some(r))
    ensures Used(Judge(lines, spans, number, spent).1, Some(r)) == Used(spent, Some(r))
  {
    hide RegionOf, Counters, Reasoned, Bare;
  }

  lemma AfterStep(lines: seq<Line>, spans: seq<Span>, n: nat)
    requires 0 < n <= |lines|
    ensures var s := After(lines, spans, n - 1);
      After(lines, spans, n) ==
      if !lines[n - 1].watched then s
      else State(s.out + [(n, Judge(lines, spans, n, s.spent).0)], Judge(lines, spans, n, s.spent).1)
  {
    hide Judge;
  }

  lemma SpinnersStep(lines: seq<Line>, spans: seq<Span>, r: Span, n: nat)
    requires 0 < n <= |lines|
    ensures Spinners(lines, spans, r, n) == Spinners(lines, spans, r, n - 1)
      + (if lines[n - 1].watched && lines[n - 1].spinner && RegionOf(n, spans) == Some(r) then 1 else 0)
  {
    hide RegionOf;
  }

  /** `k` spinners have used up the counters first and the exemptions next; the excess is unsatisfied. */
  ghost predicate Balanced(k: nat, c: nat, e: nat, used: (nat, nat), unsatisfied: nat) {
    used == (Min(k, c), Min(Excess(k, c), e)) && unsatisfied == Excess(k, c + e)
  }

  lemma BalancedStep(k: nat, c: nat, e: nat, used: (nat, nat), unsatisfied: nat)
    requires Balanced(k, c, e, used, unsatisfied)
    ensures used.0 < c ==> Balanced(k + 1, c, e, (used.0 + 1, used.1), unsatisfied)
    ensures used.0 >= c && used.1 < e ==> Balanced(k + 1, c, e, (used.0, used.1 + 1), unsatisfied)
    ensures used.0 >= c && used.1 >= e ==> Balanced(k + 1, c, e, used, unsatisfied + 1)
  {
  }

  lemma NothingSpent(lines: seq<Line>, spans: seq<Span>, r: Span)
    ensures Balanced(Spinners(lines, spans, r, 0), Counters(lines, r), Reasoned(lines, r),
                     Used(After(lines, spans, 0).spent, Some(r)), Unsatisfied(lines, spans, r, After(lines, spans, 0).out))
  {
    hide Counters, Reasoned;
  }

  /** A function's spinners use up its counters first and its exemptions next, and nothing else touches them. */
  lemma {:induction false} SpentSoFar(lines: seq<Line>, spans: seq<Span>, r: Span, n: nat)
    requires n <= |lines|
    ensures Balanced(Spinners(lines, spans, r, n), Counters(lines, r), Reasoned(lines, r),
                     Used(After(lines, spans, n).spent, Some(r)), Unsatisfied(lines, spans, r, After(lines, spans, n).out))
  {
    hide *;
    if n == 0 {
      NothingSpent(lines, spans, r);
    } else {
      SpentSoFar(lines, spans, r, n - 1);
      AfterStep(lines, spans, n);
      SpinnersStep(lines, spans, r, n);
      var s := After(lines, spans, n - 1);
      if lines[n - 1].watched {
        UnsatisfiedStep(lines, spans, r, s.out, n, Judge(lines, spans, n, s.spent).0);
        if lines[n - 1].spinner && RegionOf(n, spans) == Some(r) {
          JudgeSpends(lines, spans, r, n, s.spent);
          SatisfiedAre();
          BalancedStep(Spinners(lines, spans, r, n - 1), Counters(lines, r), Reasoned(lines, r),
                       Used(s.spent, Some(r)), Unsatisfied(lines, spans, r, s.out));
        } else {
          JudgeKeeps(lines, spans, r, n, s.spent);
        }
      }
    }
  }

  lemma SatisfiedAre()
    ensures Satisfied(Counted) && Satisfied(Exempt)
  {
  }

  /** Exactly the spinners beyond counters and exemptions together are unsatisfied. */
  lemma UnsatisfiedIsExcess(lines: seq<Line>, spans: seq<Span>, r: Span)
    ensures Unsatisfied(lines, spans, r, After(lines, spans, |lines|).out)
            == Excess(Spinners(lines, spans, r, |lines|), Counters(lines, r) + Reasoned(lines, r))
  {
    SpentSoFar(lines, spans, r, |lines|);
  }

  /** `scan` on one file. */
  method Scan(lines: seq<Line>, spans: seq<Span>) returns (out: seq<(nat, Verdict)>)
    ensures out == After(lines, spans, |lines|).out
    ensures forall r :: Unsatisfied(lines, spans, r, out) == Excess(Spinners(lines, spans, r, |lines|), Counters(lines, r) + Reasoned(lines, r))
  {
    forall r
      ensures Unsatisfied(lines, spans, r, After(lines, spans, |lines|).out)
              == Excess(Spinners(lines, spans, r, |lines|), Counters(lines, r) + Reasoned(lines, r))
    {
      UnsatisfiedIsExcess(lines, spans, r);
    }
    out := [];
    var spent: Spent := map[];
    for idx := 0 to |lines|
      invariant After(lines, spans, idx) == State(out, spent)
    {
      hide RegionOf, Counters, Reasoned, Bare, Unsatisfied;
      var number, line := idx + 1, lines[idx];
      if line.watched {
        var region := RegionOf(number, spans);
        var w := Window(region, number);
        var counters, reasoned, bare := Counters(lines, w), Reasoned(lines, w), Bare(lines, w);
        var verdict := Unaccounted;
        if line.spinner {
          var (cUsed, eUsed) := Used(spent, region);
          if cUsed < counters {
            verdict := Counted;
            spent := spent[region := (cUsed + 1, eUsed)];
          } else if eUsed < reasoned {
            verdict := Exempt;
            spent := spent[region := (cUsed, eUsed + 1)];
          } else if bare {
            verdict := NoReason;
          }
        } else if line.absent {
          verdict := if reasoned > 0 then Exempt else if bare then NoReason else Unaccounted;
        } else if counters > 0 {
          verdict := Counted;
        } else if reasoned > 0 {
          verdict := Exempt;
        } else if bare {
          verdict := NoReason;
        }
        out := out + [(number, verdict)];
      }
    }
  }

  // ------------------------------------------------------------------ module level

  /** A watched spinner line outside every function. */
  predicate Loose(lines: seq<Line>, spans: seq<Span>, n: nat) {
    1 <= n <= |lines| && lines[n - 1].watched && lines[n - 1].spinner && RegionOf(n, spans).None?
  }

  /** The lines of `out` that are such spinners and got this verdict. */
  function Granted(lines: seq<Line>, spans: seq<Span>, out: seq<(nat, Verdict)>, v: Verdict): nat {
    if out == [] then 0
    else
      var (number, verdict) := out[|out| - 1];
      Granted(lines, spans, out[..|out| - 1], v) + (if Loose(lines, spans, number) && verdict == v then 1 else 0)
  }

  /**
   * How many of the first `n` lines were counted and how many exempted at module level, told from the windows alone:
   * each spinner needs more counters in its own window than all spinners before it were given, else more exemptions.
   */
  function Taken(lines: seq<Line>, spans: seq<Span>, n: nat): (nat, nat)
    requires n <= |lines|
  {
    if n == 0 then (0, 0)
    else
      var (c, e) := Taken(lines, spans, n - 1);
      var w := Window(None, n);
      if !Loose(lines, spans, n) then (c, e)
      else if c < Counters(lines, w) then (c + 1, e)
      else if e < Reasoned(lines, w) then (c, e + 1)
      else (c, e)
  }

  lemma GrantedStep(lines: seq<Line>, spans: seq<Span>, out: seq<(nat, Verdict)>, number: nat, verdict: Verdict, v: Verdict)
    ensures Granted(lines, spans, out + [(number, verdict)], v)
            == Granted(lines, spans, out, v) + (if Loose(lines, spans, number) && verdict == v then 1 else 0)
  {
    assert (out + [(number, verdict)])[..|out|] == out;
  }

  /** A module-level spinner takes what its window has beyond what is spent. */
  lemma JudgeLoose(lines: seq<Line>, spans: seq<Span>, n: nat, spent: Spent)
    requires Loose(lines, spans, n)
    ensures var (verdict, after) := Judge(lines, spans, n, spent);
      var (c, e) := Used(spent, None);
      var w := Window(None, n);
      && (verdict == Counted <==> c < Counters(lines, w)) && (verdict == Exempt <==> c >= Counters(lines, w) && e < Reasoned(lines, w))
      && Used(after, None) == (if verdict == Counted then c + 1 else c, if verdict == Exempt then e + 1 else e)
  {
    hide RegionOf, Counters, Reasoned, Bare;
  }

  lemma JudgeElsewhere(lines: seq<Line>, spans: seq<Span>, n: nat, spent: Spent)
    requires 1 <= n <= |lines| && lines[n - 1].watched && !Loose(lines, spans, n)
    ensures Used(Judge(lines, spans, n, spent).1, None) == Used(spent, None)
  {
    hide RegionOf, Counters, Reasoned, Bare;
  }

  lemma NothingLoose(lines: seq<Line>, spans: seq<Span>, v: Verdict)
    ensures After(lines, spans, 0) == State([], map[]) && Used(map[], None) == (0, 0) == Taken(lines, spans, 0)
    ensures Granted(lines, spans, [], v) == 0
  {
  }

  lemma TakenStep(lines: seq<Line>, spans: seq<Span>, n: nat)
    requires 0 < n <= |lines|
    ensures var (c, e) := Taken(lines, spans, n - 1);
      var w := Window(None, n);
      Taken(lines, spans, n) ==
      if !Loose(lines, spans, n) then (c, e)
      else if c < Counters(lines, w) then (c + 1, e)
      else if e < Reasoned(lines, w) then (c, e + 1)
      else (c, e)
  {
    hide Loose, Counters, Reasoned;
  }

  /** What is spent at module level: the verdicts given there, which the windows determine. */
  lemma {:induction false} SpentAtModuleLevel(lines: seq<Line>, spans: seq<Span>, n: nat)
    requires n <= |lines|
    ensures var s := After(lines, spans, n);
      Used(s.spent, None) == Taken(lines, spans, n) == (Granted(lines, spans, s.out, Counted), Granted(lines, spans, s.out, Exempt))
  {
    hide *;
    if n == 0 {
      NothingLoose(lines, spans, Counted);
      NothingLoose(lines, spans, Exempt);
    } else {
      SpentAtModuleLevel(lines, spans, n - 1);
      AfterStep(lines, spans, n);
      TakenStep(lines, spans, n);
      LooseIsWatched(lines, spans, n);
      var s := After(lines, spans, n - 1);
      if lines[n - 1].watched {
        var verdict := Judge(lines, spans, n, s.spent).0;
        GrantedStep(lines, spans, s.out, n, verdict, Counted);
        GrantedStep(lines, spans, s.out, n, verdict, Exempt);
        if Loose(lines, spans, n) { JudgeLoose(lines, spans, n, s.spent); } else { JudgeElsewhere(lines, spans, n, s.spent); }
      }
    }
  }

  lemma LooseIsWatched(lines: seq<Line>, spans: seq<Span>, n: nat)
    requires 1 <= n <= |lines|
    ensures Loose(lines, spans, n) ==> lines[n - 1].watched
  {
  }

  /** The verdict on a module-level spinner. */
  function VerdictOf(lines: seq<Line>, spans: seq<Span>, n: nat): Verdict
    requires Loose(lines, spans, n)
  {
    Judge(lines, spans, n, After(lines, spans, n - 1).spent).0
  }

  /** It is the one `scan` reports: counted or exempted exactly when its window has more than is taken before it. */
  lemma ModuleVerdict(lines: seq<Line>, spans: seq<Span>, n: nat)
    requires Loose(lines, spans, n)
    ensures After(lines, spans, n).out == After(lines, spans, n - 1).out + [(n, VerdictOf(lines, spans, n))]
    ensures var (c, e) := Taken(lines, spans, n - 1);
      var w := Window(None, n);
      && (VerdictOf(lines, spans, n) == Counted <==> c < Counters(lines, w))
      && (VerdictOf(lines, spans, n) == Exempt <==> c >= Counters(lines, w) && e < Reasoned(lines, w))
      && (Satisfied(VerdictOf(lines, spans, n)) <==> c < Counters(lines, w) || e < Reasoned(lines, w))
  {
    SpentAtModuleLevel(lines, spans, n - 1);
    hide RegionOf, Counters, Reasoned, Bare, Judge, Taken, Granted;
    JudgeLoose(lines, spans, n, After(lines, spans, n - 1).spent);
  }

  /** Every module-level spinner with a counter in its window is satisfied. */
  ghost predicate CountersServe(lines: seq<Line>, spans: seq<Span>) {
    forall n :: Loose(lines, spans, n) && Counters(lines, Window(None, n)) > 0 ==> Satisfied(VerdictOf(lines, spans, n))
  }

  /** That holds exactly when at each of them the window has more counters, or more exemptions, than are taken before it. */
  lemma WhenCountersServe(lines: seq<Line>, spans: seq<Span>)
    ensures CountersServe(lines, spans) <==>
      forall n: nat :: Loose(lines, spans, n) && Counters(lines, Window(None, n)) > 0 ==>
        Taken(lines, spans, n - 1).0 < Counters(lines, Window(None, n)) || Taken(lines, spans, n - 1).1 < Reasoned(lines, Window(None, n))
  {
    hide Counters, Reasoned, Taken, Satisfied, VerdictOf, After;
    forall n: nat | Loose(lines, spans, n)
      ensures Satisfied(VerdictOf(lines, spans, n)) <==>
        (Taken(lines, spans, n - 1).0 < Counters(lines, Window(None, n)) || Taken(lines, spans, n - 1).1 < Reasoned(lines, Window(None, n)))
    {
      ModuleVerdict(lines, spans, n);
    }
  }

  /** The module-level spinners among the first `n` lines that have a counter in their window. */
  function Claims(lines: seq<Line>, spans: seq<Span>, n: nat): nat
    requires n <= |lines|
  {
    if n == 0 then 0
    else Claims(lines, spans, n - 1) + (if Loose(lines, spans, n) && Counters(lines, Window(None, n)) > 0 then 1 else 0)
  }

  ghost predicate NoExemption(lines: seq<Line>, spans: seq<Span>) {
    forall n: nat :: Loose(lines, spans, n) ==> Reasoned(lines, Window(None, n)) == 0
  }

  lemma {:induction false} TakenClaims(lines: seq<Line>, spans: seq<Span>, n: nat)
    requires n <= |lines|
    ensures Taken(lines, spans, n).0 <= Claims(lines, spans, n)
    ensures NoExemption(lines, spans) ==> Taken(lines, spans, n).1 == 0
    ensures (forall m: nat :: m <= n && Loose(lines, spans, m) && Counters(lines, Window(None, m)) > 0 ==>
              Taken(lines, spans, m - 1).0 < Counters(lines, Window(None, m))) ==> Taken(lines, spans, n).0 == Claims(lines, spans, n)
  {
    hide Loose, Counters, Reasoned;
    if n > 0 { TakenClaims(lines, spans, n - 1); }
  }

  /** Without exemptions: exactly when the window of the k-th of them has at least k counters. */
  lemma CountersServeByRank(lines: seq<Line>, spans: seq<Span>)
    requires NoExemption(lines, spans)
    ensures CountersServe(lines, spans) <==>
      forall n: nat :: Loose(lines, spans, n) && Counters(lines, Window(None, n)) > 0 ==>
        Claims(lines, spans, n) <= Counters(lines, Window(None, n))
  {
    WhenCountersServe(lines, spans);
    forall n: nat | 0 < n <= |lines|
      ensures Claims(lines, spans, n) == Claims(lines, spans, n - 1) + (if Loose(lines, spans, n) && Counters(lines, Window(None, n)) > 0 then 1 else 0)
    {
    }
    hide Counters, Reasoned, Taken, CountersServe, Claims, RegionOf;
    forall n: nat | n < |lines| { TakenClaims(lines, spans, n); }
  }

  /**
   * At module level each line has its own window, but what is spent is kept under one key: of two spinners far apart,
   * each with a counter beside it, the second is refused.
   */
  lemma ModuleLevelShares() returns (lines: seq<Line>)
    ensures |lines| == 6 && forall n :: n in {1, 6} ==> RegionOf(n, []).None? && Counters(lines, Window(None, n)) == 1
    ensures After(lines, [], 6).out == [(1, Counted), (6, Unaccounted)]
  {
    var plain := Line(false, false, false, false, false, false);
    var spinner := Line(true, true, false, true, false, false);
    lines := [spinner, plain, plain, plain, plain, spinner];
    FarApart(lines);
    var spent: Spent := map[None := (1, 0)];
    hide Counters, Reasoned, Bare, RegionOf;
    assert RegionOf(1, []) == None && RegionOf(6, []) == None by { RegionIsInnermost(1, []); RegionIsInnermost(6, []); }
    assert Judge(lines, [], 1, map[]) == (Counted, spent);
    assert Judge(lines, [], 6, spent) == (Unaccounted, spent);
    assert After(lines, [], 1) == State([(1, Counted)], spent);
    assert After(lines, [], 3) == After(lines, [], 1);
    assert After(lines, [], 5) == After(lines, [], 3);
  }

  lemma FarApart(lines: seq<Line>)
    requires |lines| == 6 && lines[0].counter && lines[5].counter && forall k :: 0 <= k < 6 ==> !lines[k].reasoned && !lines[k].bare
    requires forall k :: 1 <= k < 5 ==> !lines[k].counter
    ensures Counters(lines, Window(None, 1)) == 1 && Counters(lines, Window(None, 6)) == 1
    ensures Reasoned(lines, Window(None, 6)) == 0 && !Bare(lines, Window(None, 6))
  {
    var counter, reasoned, bare := (l: Line) => l.counter, (l: Line) => l.reasoned, (l: Line) => l.bare;
    assert Count(lines, counter, 1, 1) == 1;
    assert Count(lines, counter, 3, 4) == 0 && Count(lines, counter, 3, 6) == 1;
    assert Count(lines, reasoned, 3, 4) == 0 && Count(lines, reasoned, 3, 6) == 0;
    assert Count(lines, bare, 3, 4) == 0 && Count(lines, bare, 3, 6) == 0;
  }
}
