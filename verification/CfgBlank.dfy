/** `_balanced`, `_item_end`, `blank_cfg_test` and `Source.line` of ci/check-module-cycle.py. */
module CfgBlank {
  import opened Options
  import opened Text
  import opened RustMask
  import CfgTest

  /** A Python slice, clamped to the string. */
  function Slice(s: string, i: nat, j: int): string {
    if i <= j <= |s| then s[i..j] else if i <= |s| < j then s[i..] else ""
  }

  function SkipSpace(cs: Chars, s: string, i: nat): (r: nat)
    ensures i <= r && (i <= |s| ==> r <= |s|)
    decreases |s| - i
  {
    if i < |s| && cs.space(s[i]) then SkipSpace(cs, s, i + 1) else i
  }

  // ------------------------------------------------------------------ brackets

  /** Just past the bracket that brings `depth` back to zero, or the end of the text. */
  function BalancedFrom(s: string, j: nat, depth: int, open: char, close: char): (r: nat)
    requires j <= |s|
    ensures j <= r <= |s| && (j < |s| ==> j < r)
    decreases |s| - j
  {
    if j == |s| then j
    else if s[j] == open then BalancedFrom(s, j + 1, depth + 1, open, close)
    else if s[j] == close then (if depth == 1 then j + 1 else BalancedFrom(s, j + 1, depth - 1, open, close))
    else BalancedFrom(s, j + 1, depth, open, close)
  }

  method Balanced(s: string, i: nat, open: char, close: char) returns (end: nat)
    requires i <= |s| && open != close
    ensures end == BalancedFrom(s, i, 0, open, close)
  {
    var depth := 0;
    var j := i;
    while j < |s|
      invariant i <= j <= |s|
      invariant BalancedFrom(s, i, 0, open, close) == BalancedFrom(s, j, depth, open, close)
    {
      if s[j] == open {
        depth := depth + 1;
      } else if s[j] == close {
        depth := depth - 1;
        if depth == 0 {
          return j + 1;
        }
      }
      j := j + 1;
    }
    return |s|;
  }

  /** `open`s less `close`s in `s[a..b]`. */
  ghost function Level(s: string, a: nat, b: nat, open: char, close: char): int
    requires b <= |s|
    decreases b
  {
    if b <= a then 0 else Level(s, a, b - 1, open, close) + (if s[b - 1] == open then 1 else if s[b - 1] == close then -1 else 0)
  }

  /** At `k` a `close` makes the two counts equal, for the first time from `a` on. */
  ghost predicate FirstClose(s: string, a: nat, k: nat, open: char, close: char) {
    && a <= k < |s| && s[k] == close && Level(s, a, k + 1, open, close) == 0
    && forall i :: a <= i < k && s[i] == close ==> Level(s, a, i + 1, open, close) != 0
  }

  /** The text ends just past the first `close` that brings the two counts together, or at its own end when none does. */
  lemma {:induction false} BalancedIsFirst(s: string, a: nat, j: nat, open: char, close: char)
    requires a <= j <= |s| && open != close
    requires forall i :: a <= i < j && s[i] == close ==> Level(s, a, i + 1, open, close) != 0
    ensures var r := BalancedFrom(s, j, Level(s, a, j, open, close), open, close);
      (forall k: nat :: FirstClose(s, a, k, open, close) ==> r == k + 1) && ((forall k: nat :: !FirstClose(s, a, k, open, close)) ==> r == |s|)
    decreases |s| - j
  {
    if j < |s| {
      if s[j] == close && Level(s, a, j + 1, open, close) == 0 {
        assert FirstClose(s, a, j, open, close);
      } else {
        BalancedIsFirst(s, a, j + 1, open, close);
      }
    }
  }

  // ------------------------------------------------------------------ where an item ends

  /** Where the bracket of the attribute at `i` has to be. */
  function BracketAt(cs: Chars, s: string, i: nat): (r: nat)
    ensures i < r
  {
    var j := SkipSpace(cs, s, i + 1);
    if j < |s| && s[j] == '!' then SkipSpace(cs, s, j + 1) else j
  }

  /** Past any further attributes in front of the item. */
  function SkipAttributes(cs: Chars, s: string, i: nat): (r: nat)
    requires i <= |s|
    ensures i <= r <= |s|
    decreases |s| - i
  {
    var k := SkipSpace(cs, s, i);
    if k < |s| && s[k] == '#' && BracketAt(cs, s, k) < |s| && s[BracketAt(cs, s, k)] == '['
    then SkipAttributes(cs, s, BalancedFrom(s, BracketAt(cs, s, k), 0, '[', ']')) else k
  }

  /** `pub`, `pub(..)` and the space behind them. */
  function SkipVisibility(cs: Chars, head: string): string {
    if Has(head, 0, "pub") then
      var k := SkipSpace(cs, head, 3);
      match (if At(head, k) == Some('(') then Find(head, ")", k) else None)
      case None => head[k..]
      case Some(c) => head[SkipSpace(cs, head, c + 1)..]
    else head
  }

  predicate Starts(c: char) {
    'a' <= c <= 'z' || 'A' <= c <= 'Z' || c == '_'
  }

  function WordEnd(cs: Chars, s: string, i: nat): (r: nat)
    requires i <= |s|
    ensures i <= r <= |s|
    decreases |s| - i
  {
    if i < |s| && cs.word(s[i]) then WordEnd(cs, s, i + 1) else i
  }

  function FirstWord(cs: Chars, s: string): string {
    if s != [] && Starts(s[0]) then s[..WordEnd(cs, s, 1)] else ""
  }

  /** The text up to the first of `= ; { (`. */
  function HeadLine(head: string): string {
    if head == [] || head[0] == '=' || head[0] == ';' || head[0] == '{' || head[0] == '(' then ""
    else [head[0]] + HeadLine(head[1..])
  }

  /** Whether the word `fn` occurs at or after `i`. */
  predicate SaysFn(cs: Chars, s: string, i: nat)
    decreases |s| - i
  {
    i < |s| && ((Has(s, i, "fn") && (i == 0 || !cs.word(s[i - 1])) && (i + 2 >= |s| || !cs.word(s[i + 2]))) || SaysFn(cs, s, i + 1))
  }

  datatype Mode = Semi | Block | Expr

  function ModeOf(cs: Chars, s: string, i: nat): Mode {
    var head := SkipVisibility(cs, Slice(s, i, i + 200));
    var word := FirstWord(cs, head);
    var kw := if word == "const" then (if SaysFn(cs, HeadLine(head), 0) then "fn" else "const") else word;
    if kw in ["use", "static", "type", "let", "const"] then Semi
    else if kw in ["mod", "fn", "impl", "trait", "struct", "enum", "union", "macro_rules", "extern", "unsafe", "async"] then Block
    else Expr
  }

  predicate Opener(c: char) { c == '(' || c == '[' || c == '{' }
  predicate Closer(c: char) { c == ')' || c == ']' || c == '}' }

  /** What the character at `j` means for an item that is `depth` brackets deep. */
  datatype Move = Stop(end: nat) | Go(depth: nat)

  function MoveAt(cs: Chars, s: string, j: nat, depth: nat, mode: Mode): (m: Move)
    requires j < |s|
    ensures m.Stop? ==> j <= m.end <= |s|
  {
    var c := s[j];
    if Opener(c) then Go(depth + 1)
    else if Closer(c) then
      if depth == 0 then Stop(j)
      else if depth == 1 && c == '}' && mode != Semi then
        var k := SkipSpace(cs, s, j + 1);
        Stop(if mode == Expr && k < |s| && s[k] == ',' then k + 1 else j + 1)
      else Go(depth - 1)
    else if depth == 0 && (c == ';' || (c == ',' && mode == Expr)) then Stop(j + 1)
    else Go(depth)
  }

  function EndFrom(cs: Chars, s: string, j: nat, depth: nat, mode: Mode): (r: nat)
    requires j <= |s|
    ensures j <= r <= |s|
    decreases |s| - j
  {
    if j == |s| then j
    else match MoveAt(cs, s, j, depth, mode) case Stop(end) => end case Go(next) => EndFrom(cs, s, j + 1, next, mode)
  }

  /** End of the item, statement or field that starts at `i`, after its attributes. */
  function ItemEnd(cs: Chars, s: string, i: nat): (r: nat)
    requires i <= |s|
    ensures i <= r <= |s|
  {
    var start := SkipAttributes(cs, s, i);
    EndFrom(cs, s, start, 0, ModeOf(cs, s, start))
  }

  /** Brackets opened less brackets closed in `s[a..b]`. */
  ghost function Depth(s: string, a: nat, b: nat): int
    requires b <= |s|
    decreases b
  {
    if b <= a then 0 else Depth(s, a, b - 1) + (if Opener(s[b - 1]) then 1 else if Closer(s[b - 1]) then -1 else 0)
  }

  /** The item that begins at `a` cannot go past `k`: its last bracket, its separator, or its surroundings' bracket. */
  ghost predicate Stops(s: string, a: nat, k: nat, mode: Mode)
    requires k < |s|
  {
    var c, d := s[k], Depth(s, a, k);
    (Closer(c) && (d == 0 || (d == 1 && c == '}' && mode != Semi))) || (d == 0 && (c == ';' || (c == ',' && mode == Expr)))
  }

  /** Where the item ends when it stops at `k`: before a bracket that is not its own, else behind what stops it. */
  ghost function StopEnd(cs: Chars, s: string, a: nat, k: nat, mode: Mode): nat
    requires k < |s|
  {
    var next := SkipSpace(cs, s, k + 1);
    if Closer(s[k]) && Depth(s, a, k) == 0 then k
    else if Closer(s[k]) && mode == Expr && next < |s| && s[next] == ',' then next + 1
    else k + 1
  }

  ghost predicate FirstStop(s: string, a: nat, k: nat, mode: Mode) {
    a <= k < |s| && Stops(s, a, k, mode) && forall i :: a <= i < k ==> !Stops(s, a, i, mode)
  }

  /** The item ends at its first stop, or with the text when it has none. */
  lemma {:induction false} EndIsFirstStop(cs: Chars, s: string, a: nat, j: nat, depth: nat, mode: Mode)
    requires a <= j <= |s| && depth == Depth(s, a, j) && forall i :: a <= i < j ==> !Stops(s, a, i, mode)
    ensures forall k: nat :: FirstStop(s, a, k, mode) ==> EndFrom(cs, s, j, depth, mode) == StopEnd(cs, s, a, k, mode)
    ensures (forall k: nat :: !FirstStop(s, a, k, mode)) ==> EndFrom(cs, s, j, depth, mode) == |s|
    decreases |s| - j
  {
    hide SkipSpace;
    if j < |s| {
      if Stops(s, a, j, mode) {
        assert FirstStop(s, a, j, mode);
        assert forall k: nat :: FirstStop(s, a, k, mode) ==> k == j;
      } else {
        var c := s[j];
        EndIsFirstStop(cs, s, a, j + 1, if Opener(c) then depth + 1 else if Closer(c) then depth - 1 else depth, mode);
      }
    }
  }

  /** The first loop of `_item_end`: past the attributes. */
  method PastAttributes(cs: Chars, s: string, i: nat) returns (r: nat)
    requires i <= |s|
    ensures r == SkipAttributes(cs, s, i)
  {
    r := i;
    while true
      invariant r <= |s| && SkipAttributes(cs, s, i) == SkipAttributes(cs, s, r)
      decreases |s| - r
    {
      var k := SkipSpace(cs, s, r);
      if k >= |s| || s[k] != '#' {
        return k;
      }
      var j := SkipSpace(cs, s, k + 1);
      if j < |s| && s[j] == '!' {
        j := SkipSpace(cs, s, j + 1);
      }
      if j >= |s| || s[j] != '[' {
        return k;
      }
      r := Balanced(s, j, '[', ']');
    }
  }

  /** `_item_end`, whose second loop follows the brackets of the item. */
  method FindItemEnd(cs: Chars, s: string, i: nat) returns (end: nat)
    requires i <= |s|
    ensures end == ItemEnd(cs, s, i)
  {
    var start := PastAttributes(cs, s, i);
    var mode := ModeOf(cs, s, start);
    ItemEndIs(cs, s, i);
    hide *;
    var depth: nat, j: nat := 0, start;
    while j < |s|
      invariant start <= j <= |s|
      invariant ItemEnd(cs, s, i) == EndFrom(cs, s, j, depth, mode)
    {
      EndStep(cs, s, j, depth, mode);
      var move := Follow(cs, s, j, depth, mode);
      if move.Stop? {
        return move.end;
      }
      depth, j := move.depth, j + 1;
    }
    EndNone(cs, s, depth, mode);
    return |s|;
  }

  /** The body of that loop. */
  method Follow(cs: Chars, s: string, j: nat, depth: nat, mode: Mode) returns (m: Move)
    requires j < |s|
    ensures m == MoveAt(cs, s, j, depth, mode)
  {
    hide SkipSpace;
    var c := s[j];
    if Opener(c) {
      return Go(depth + 1);
    } else if Closer(c) {
      if depth == 0 {
        return Stop(j);
      }
      if depth == 1 && c == '}' && mode != Semi {
        var k := SkipSpace(cs, s, j + 1);
        return Stop(if mode == Expr && k < |s| && s[k] == ',' then k + 1 else j + 1);
      }
      return Go(depth - 1);
    } else if depth == 0 && (c == ';' || (c == ',' && mode == Expr)) {
      return Stop(j + 1);
    }
    m := Go(depth);
  }

  lemma ItemEndIs(cs: Chars, s: string, i: nat)
    requires i <= |s|
    ensures var start := SkipAttributes(cs, s, i); ItemEnd(cs, s, i) == EndFrom(cs, s, start, 0, ModeOf(cs, s, start))
  {
    hide EndFrom, ModeOf, SkipAttributes;
  }

  lemma EndNone(cs: Chars, s: string, depth: nat, mode: Mode)
    ensures EndFrom(cs, s, |s|, depth, mode) == |s|
  {
  }

  lemma EndStep(cs: Chars, s: string, j: nat, depth: nat, mode: Mode)
    requires j < |s|
    ensures var m := MoveAt(cs, s, j, depth, mode);
      EndFrom(cs, s, j, depth, mode) == if m.Stop? then m.end else EndFrom(cs, s, j + 1, m.depth, mode)
  {
    hide MoveAt;
  }

  // ------------------------------------------------------------------ the cfg(test) items

  /** `#[cfg(` or `#![cfg(` at `from`; `end` is just past its parenthesis. */
  datatype CfgMatch = CfgMatch(from: nat, bang: bool, end: nat)

  function CfgAt(cs: Chars, b: string, i: nat): (r: Option<CfgMatch>)
    requires i < |b|
    ensures r.Some? ==> r.value.from == i < r.value.end <= |b|
  {
    if b[i] != '#' then None
    else
      var j := SkipSpace(cs, b, i + 1);
      var bang := At(b, j) == Some('!');
      var k := SkipSpace(cs, b, if bang then j + 1 else j);
      if At(b, k) != Some('[') then None
      else
        var l := SkipSpace(cs, b, k + 1);
        var m := SkipSpace(cs, b, l + 3);
        if Has(b, l, "cfg") && At(b, m) == Some('(') then Some(CfgMatch(i, bang, m + 1)) else None
  }

  function NextCfg(cs: Chars, b: string, pos: nat): (r: Option<CfgMatch>)
    requires pos <= |b|
    ensures r.Some? ==> pos <= r.value.from < r.value.end <= |b|
    decreases |b| - pos
  {
    if pos == |b| then None
    else if CfgAt(cs, b, pos).Some? then CfgAt(cs, b, pos)
    else NextCfg(cs, b, pos + 1)
  }

  /** What one match leads to: nothing, an item to blank, or a file that is all test code. */
  datatype Verdict = Skip | Cut(from: nat, to: nat) | WholeFile

  function Judge(cs: Chars, b: string, m: CfgMatch, upto: nat): (v: Verdict)
    requires m.from < m.end <= |b|
    ensures v.Cut? ==> upto <= v.from == m.from < v.to <= |b|
  {
    var close := BalancedFrom(b, m.end - 1, 0, '(', ')');
    var k := SkipSpace(cs, b, close);
    if m.from < upto then Skip
    else if !CfgTest.IsTestPredicate(cs.space, Slice(b, m.end, close - 1)) then Skip
    else if k >= |b| || b[k] != ']' then Skip
    else if m.bang then WholeFile
    else Cut(m.from, ItemEnd(cs, b, k + 1))
  }

  /** The body of the loop of `blank_cfg_test`, for one match. */
  method Decide(cs: Chars, b: string, m: CfgMatch, upto: nat) returns (v: Verdict)
    requires m.from < m.end <= |b|
    ensures v == Judge(cs, b, m, upto)
  {
    hide SkipSpace, BalancedFrom, ItemEnd, CfgTest.IsTestPredicate, Slice;
    var close := Balanced(b, m.end - 1, '(', ')');
    var k := SkipSpace(cs, b, close);
    if m.from < upto || !CfgTest.IsTestPredicate(cs.space, Slice(b, m.end, close - 1)) || k >= |b| || b[k] != ']' {
      return Skip;
    }
    if m.bang {
      return WholeFile;
    }
    var end := FindItemEnd(cs, b, k + 1);
    v := Cut(m.from, end);
  }

  type Span = (nat, nat)

  /** The spans to blank, from `pos` on; none when the whole file is test code. */
  function Spans(cs: Chars, b: string, pos: nat, upto: nat): (r: Option<seq<Span>>)
    requires pos <= |b|
    decreases |b| - pos
  {
    match NextCfg(cs, b, pos)
    case None => Some([])
    case Some(m) =>
      match Judge(cs, b, m, upto)
      case Skip => Spans(cs, b, m.end, upto)
      case WholeFile => None
      case Cut(from, to) =>
        match Spans(cs, b, m.end, to)
        case None => None
        case Some(rest) => Some([(from, to)] + rest)
  }

  /** The spans follow one another inside the first `n` characters, from `lo` on. */
  ghost predicate Ordered(spans: seq<Span>, lo: nat, n: nat)
    decreases |spans|
  {
    lo <= n && (spans != [] ==> lo <= spans[0].0 < spans[0].1 <= n && Ordered(spans[1..], spans[0].1, n))
  }

  lemma {:induction false} SpansOrdered(cs: Chars, b: string, pos: nat, upto: nat)
    requires pos <= |b| && upto <= |b| && Spans(cs, b, pos, upto).Some?
    ensures Ordered(Spans(cs, b, pos, upto).value, upto, |b|)
    decreases |b| - pos
  {
    hide Judge, NextCfg;
    match NextCfg(cs, b, pos)
    case None =>
    case Some(m) =>
      match Judge(cs, b, m, upto)
      case Skip => SpansOrdered(cs, b, m.end, upto);
      case WholeFile =>
      case Cut(from, to) => SpansOrdered(cs, b, m.end, to);
  }

  lemma {:induction false} NextIsCfg(cs: Chars, b: string, pos: nat)
    requires pos <= |b| && NextCfg(cs, b, pos).Some?
    ensures NextCfg(cs, b, pos).value.from < |b| && CfgAt(cs, b, NextCfg(cs, b, pos).value.from) == NextCfg(cs, b, pos)
    decreases |b| - pos
  {
    hide CfgAt;
    if pos < |b| && CfgAt(cs, b, pos).None? { NextIsCfg(cs, b, pos + 1); }
  }

  /** The text between the parentheses of a `cfg`. */
  function Predicate(b: string, m: CfgMatch): string
    requires m.from < m.end <= |b|
  {
    Slice(b, m.end, BalancedFrom(b, m.end - 1, 0, '(', ')') - 1)
  }

  /** An item whose attribute is an outer `cfg` with a predicate that is accepted as test-only. */
  ghost predicate TestItem(cs: Chars, b: string, s: Span) {
    s.0 < |b| && CfgAt(cs, b, s.0).Some? &&
    var m := CfgAt(cs, b, s.0).value;
    var close := BalancedFrom(b, m.end - 1, 0, '(', ')');
    var k := SkipSpace(cs, b, close);
    !m.bang && CfgTest.IsTestPredicate(cs.space, Predicate(b, m)) && k < |b| && b[k] == ']' && s.1 == ItemEnd(cs, b, k + 1)
  }

  lemma CutIsTestItem(cs: Chars, b: string, m: CfgMatch, upto: nat)
    requires m.from < m.end <= |b| && CfgAt(cs, b, m.from) == Some(m) && Judge(cs, b, m, upto).Cut?
    ensures TestItem(cs, b, (m.from, Judge(cs, b, m, upto).to))
  {
    hide CfgAt, BalancedFrom, SkipSpace, ItemEnd, Slice, CfgTest.IsTestPredicate;
  }

  // ------------------------------------------------------------------ what a blanked item's predicate means

  /** The parenthesis count steps over a text that opens and closes its own. */
  ghost predicate Even(x: string) {
    forall s: string, j: nat, depth: nat ::
      depth > 0 && Has(s, j, x) ==> BalancedFrom(s, j, depth, '(', ')') == BalancedFrom(s, j + |x|, depth, '(', ')')
  }

  lemma {:induction false} EvenPlain(x: string)
    requires forall c :: c in x ==> c != '(' && c != ')'
    ensures Even(x)
    decreases |x|
  {
    if x != [] {
      assert x[0] in x && forall c :: c in x[1..] ==> c in x;
      EvenPlain(x[1..]);
      forall s: string, j: nat, depth: nat | depth > 0 && Has(s, j, x)
        ensures BalancedFrom(s, j, depth, '(', ')') == BalancedFrom(s, j + |x|, depth, '(', ')')
      {
        assert s[j] == s[j..j + |x|][0];
        assert s[j + 1..j + |x|] == s[j..j + |x|][1..];
        assert Has(s, j + 1, x[1..]);
      }
    }
  }

  lemma HasJoin(s: string, j: nat, x: string, y: string)
    requires Has(s, j, x + y)
    ensures Has(s, j, x) && Has(s, j + |x|, y)
  {
    assert s[j..j + |x|] == s[j..j + |x + y|][..|x|];
    assert s[j + |x|..j + |x| + |y|] == s[j..j + |x + y|][|x|..];
  }

  lemma EvenJoin(x: string, y: string)
    requires Even(x) && Even(y)
    ensures Even(x + y)
  {
    forall s: string, j: nat, depth: nat | depth > 0 && Has(s, j, x + y)
      ensures BalancedFrom(s, j, depth, '(', ')') == BalancedFrom(s, j + |x + y|, depth, '(', ')')
    {
      HasJoin(s, j, x, y);
    }
  }

  lemma OneAt(s: string, j: nat, c: char)
    ensures Has(s, j, [c]) <==> At(s, j) == Some(c)
  {
    assert j < |s| ==> s[j..j + 1] == [s[j]];
  }

  lemma EvenAt(x: string, s: string, j: nat, depth: nat)
    requires Even(x) && depth > 0 && Has(s, j, x)
    ensures BalancedFrom(s, j, depth, '(', ')') == BalancedFrom(s, j + |x|, depth, '(', ')')
  {
  }

  lemma BalancedStep(s: string, j: nat, depth: nat)
    requires j < |s|
    ensures s[j] == '(' ==> BalancedFrom(s, j, depth, '(', ')') == BalancedFrom(s, j + 1, depth + 1, '(', ')')
    ensures s[j] == ')' && depth > 1 ==> BalancedFrom(s, j, depth, '(', ')') == BalancedFrom(s, j + 1, depth - 1, '(', ')')
    ensures s[j] == ')' && depth == 1 ==> BalancedFrom(s, j, depth, '(', ')') == j + 1
  {
  }

  /** Over a parenthesis, from the depth in front of it. */
  lemma AroundEven(x: string, s: string, j: nat, depth: nat)
    requires Even(x) && At(s, j) == Some('(') && Has(s, j + 1, x + ")")
    ensures j + |x| + 2 <= |s|
    ensures BalancedFrom(s, j, depth, '(', ')') == if depth == 0 then j + |x| + 2 else BalancedFrom(s, j + |x| + 2, depth, '(', ')')
  {
    HasJoin(s, j + 1, x, ")");
    OneAt(s, j + 1 + |x|, ')');
    BalancedStep(s, j, depth);
    EvenAt(x, s, j + 1, depth + 1);
    BalancedStep(s, j + 1 + |x|, depth + 1);
    hide *;
  }

  lemma EvenWrap(word: string, x: string)
    requires (forall c :: c in word ==> c != '(' && c != ')') && Even(x)
    ensures Even(word + "(" + x + ")")
  {
    EvenPlain(word);
    var inner := "(" + (x + ")");
    forall s: string, j: nat, depth: nat | depth > 0 && Has(s, j, inner)
      ensures BalancedFrom(s, j, depth, '(', ')') == BalancedFrom(s, j + |inner|, depth, '(', ')')
    {
      HasJoin(s, j, "(", x + ")");
      OneAt(s, j, '(');
      AroundEven(x, s, j, depth);
    }
    assert Even(inner);
    EvenJoin(word, inner);
    assert word + "(" + x + ")" == word + inner;
  }

  lemma {:induction false} EvenPrint(space: Space, t: CfgTest.Cfg)
    requires CfgTest.Named(space, t)
    ensures Even(CfgTest.Print(t))
    decreases t, 1
  {
    hide Even;
    match t
    case Test => EvenPlain("test");
    case Name(name) => EvenPlain(name);
    case All(parts) =>
      EvenList(space, parts);
      EvenWrap("all", CfgTest.PrintList(parts));
      assert "all(" == "all" + "(";
    case Any(parts) =>
      EvenList(space, parts);
      EvenWrap("any", CfgTest.PrintList(parts));
      assert "any(" == "any" + "(";
    case Not(part) =>
      EvenPrint(space, part);
      EvenWrap("not", CfgTest.Print(part));
      assert "not(" == "not" + "(";
  }

  lemma {:induction false} EvenList(space: Space, parts: seq<CfgTest.Cfg>)
    requires forall x :: x in parts ==> CfgTest.Named(space, x)
    ensures Even(CfgTest.PrintList(parts))
    decreases parts, 0
  {
    hide Even;
    if parts == [] {
      EvenPlain("");
    } else {
      EvenPrint(space, parts[0]);
      if |parts| > 1 {
        EvenList(space, parts[1..]);
        EvenPlain([' ']);
        EvenPlain(",");
        EvenJoin([' '], CfgTest.PrintList(parts[1..]));
        EvenJoin(",", [' '] + CfgTest.PrintList(parts[1..]));
        EvenJoin(CfgTest.Print(parts[0]), "," + ([' '] + CfgTest.PrintList(parts[1..])));
      }
    }
  }

  lemma OpensAt(cs: Chars, b: string, m: CfgMatch)
    requires m.from < |b| && CfgAt(cs, b, m.from) == Some(m)
    ensures At(b, m.end - 1) == Some('(')
  {
    hide SkipSpace;
  }

  lemma PredicateIsEven(b: string, m: CfgMatch, x: string)
    requires m.from < m.end <= |b| && At(b, m.end - 1) == Some('(') && Has(b, m.end, x + ")") && Even(x)
    ensures Predicate(b, m) == x && BalancedFrom(b, m.end - 1, 0, '(', ')') == m.end + |x| + 1
  {
    hide *;
    AroundEven(x, b, m.end - 1, 0);
    HasJoin(b, m.end, x, ")");
    SliceHas(b, m.end, x);
    PredicateIs(b, m);
  }

  lemma SliceHas(b: string, i: nat, x: string)
    requires Has(b, i, x)
    ensures Slice(b, i, i + |x|) == x
  {
  }

  lemma PredicateIs(b: string, m: CfgMatch)
    requires m.from < m.end <= |b|
    ensures Predicate(b, m) == Slice(b, m.end, BalancedFrom(b, m.end - 1, 0, '(', ')') - 1)
  {
    hide Slice, BalancedFrom;
  }

  /** A `cfg` whose parenthesis holds a printed predicate has just that as its text. */
  lemma PredicateIsPrinted(cs: Chars, b: string, m: CfgMatch, t: CfgTest.Cfg)
    requires m.from < |b| && CfgAt(cs, b, m.from) == Some(m) && CfgTest.Named(cs.space, t) && Has(b, m.end, CfgTest.Print(t) + ")")
    ensures Predicate(b, m) == CfgTest.Print(t)
    ensures BalancedFrom(b, m.end - 1, 0, '(', ')') == m.end + |CfgTest.Print(t)| + 1
  {
    hide *;
    EvenPrint(cs.space, t);
    OpensAt(cs, b, m);
    PredicateIsEven(b, m, CfgTest.Print(t));
  }

  /** An item under a printed predicate is blanked only if the predicate holds in no build without `test`. */
  lemma BlankedIsOff(cs: Chars, b: string, s: Span, t: CfgTest.Cfg, env: string -> bool)
    requires CfgTest.Sane(cs.space) && CfgTest.Named(cs.space, t) && TestItem(cs, b, s)
    requires Has(b, CfgAt(cs, b, s.0).value.end, CfgTest.Print(t) + ")")
    ensures CfgTest.TestOnly(t) && !CfgTest.Holds(t, env, false)
  {
    PredicateIsPrinted(cs, b, CfgAt(cs, b, s.0).value, t);
    CfgTest.ParsesTestOnly(cs.space, t);
    CfgTest.AcceptedIsOff(cs.space, t, env);
  }

  /** And a printed predicate that is test-only is passed over only inside an item that is blanked already. */
  lemma TestOnlyIsCut(cs: Chars, b: string, m: CfgMatch, upto: nat, t: CfgTest.Cfg)
    requires m.from < |b| && CfgAt(cs, b, m.from) == Some(m) && !m.bang
    requires CfgTest.Sane(cs.space) && CfgTest.Named(cs.space, t) && Has(b, m.end, CfgTest.Print(t) + ")]")
    ensures Judge(cs, b, m, upto).Cut? <==> upto <= m.from && CfgTest.TestOnly(t)
  {
    hide *;
    ClosedHas(b, m.end, CfgTest.Print(t));
    PredicateIsPrinted(cs, b, m, t);
    CfgTest.ParsesTestOnly(cs.space, t);
    NoSpace(cs, b, m.end + |CfgTest.Print(t)| + 1);
    Judged(cs, b, m, upto);
  }

  lemma ClosedHas(b: string, i: nat, p: string)
    requires Has(b, i, p + ")]")
    ensures Has(b, i, p + ")") && At(b, i + |p| + 1) == Some(']')
  {
    assert p + ")]" == (p + ")") + "]";
    HasJoin(b, i, p + ")", "]");
    OneAt(b, i + |p| + 1, ']');
    hide *;
  }

  lemma NoSpace(cs: Chars, b: string, i: nat)
    requires CfgTest.Sane(cs.space) && At(b, i) == Some(']')
    ensures SkipSpace(cs, b, i) == i
  {
    assert ']' in "()[],alnyotes";
  }

  lemma Judged(cs: Chars, b: string, m: CfgMatch, upto: nat)
    requires m.from < m.end <= |b| && !m.bang
    ensures Judge(cs, b, m, upto).Cut? <==>
      upto <= m.from && CfgTest.IsTestPredicate(cs.space, Predicate(b, m))
      && At(b, SkipSpace(cs, b, BalancedFrom(b, m.end - 1, 0, '(', ')'))) == Some(']')
  {
    hide BalancedFrom, SkipSpace, ItemEnd, Slice, CfgTest.IsTestPredicate;
  }

  /** Nothing else is ever blanked: each span is such an item, from its attribute to its end. */
  lemma {:induction false} SpansAreTestItems(cs: Chars, b: string, pos: nat, upto: nat, i: nat)
    requires pos <= |b| && Spans(cs, b, pos, upto).Some? && i < |Spans(cs, b, pos, upto).value|
    ensures TestItem(cs, b, Spans(cs, b, pos, upto).value[i])
    decreases |b| - pos
  {
    hide Judge, NextCfg, CfgAt, TestItem;
    match NextCfg(cs, b, pos)
    case None =>
    case Some(m) =>
      NextIsCfg(cs, b, pos);
      match Judge(cs, b, m, upto)
      case Skip => SpansAreTestItems(cs, b, m.end, upto, i);
      case WholeFile =>
      case Cut(from, to) =>
        CutIsTestItem(cs, b, m, upto);
        if i > 0 { SpansAreTestItems(cs, b, m.end, to, i - 1); }
  }

  /** `t` from `last` on, with the spans blanked. */
  function Blanked(t: string, spans: seq<Span>, last: nat): string
    decreases |spans|
  {
    if spans == [] then Slice(t, last, |t|)
    else Slice(t, last, spans[0].0) + Blank(Slice(t, spans[0].0, spans[0].1)) + Blanked(t, spans[1..], spans[0].1)
  }

  lemma {:induction false} BlankedShadows(t: string, spans: seq<Span>, last: nat)
    requires Ordered(spans, last, |t|)
    ensures Shadows(Blanked(t, spans, last), t[last..])
    decreases |spans|
  {
    if spans != [] {
      var s, e := spans[0].0, spans[0].1;
      BlankedShadows(t, spans[1..], e);
      Cut3(t, last, s, e);
      ShadowsJoin(Blank(t[s..e]), t[s..e], Blanked(t, spans[1..], e), t[e..]);
      ShadowsJoin(t[last..s], t[last..s], Blank(t[s..e]) + Blanked(t, spans[1..], e), t[s..e] + t[e..]);
      assert t[last..s] + Blank(t[s..e]) + Blanked(t, spans[1..], e) == t[last..s] + (Blank(t[s..e]) + Blanked(t, spans[1..], e));
    }
  }

  lemma Cut3(t: string, a: nat, b: nat, c: nat)
    requires a <= b <= c <= |t|
    ensures t[a..] == t[a..b] + (t[b..c] + t[c..])
  {
  }

  ghost predicate InSpan(spans: seq<Span>, i: nat) {
    exists k :: 0 <= k < |spans| && spans[k].0 <= i < spans[k].1
  }

  lemma {:induction false} OrderedAfter(spans: seq<Span>, lo: nat, n: nat, k: nat)
    requires Ordered(spans, lo, n) && k < |spans|
    ensures lo <= spans[k].0 < spans[k].1 <= n
    decreases k
  {
    if k > 0 { OrderedAfter(spans[1..], spans[0].1, n, k - 1); }
  }

  lemma InSpanStep(spans: seq<Span>, lo: nat, n: nat, i: nat)
    requires Ordered(spans, lo, n) && spans != []
    ensures InSpan(spans, i) <==> if i < spans[0].1 then spans[0].0 <= i else InSpan(spans[1..], i)
  {
    if k :| 0 <= k < |spans| && spans[k].0 <= i < spans[k].1 {
      if k > 0 {
        OrderedAfter(spans[1..], spans[0].1, n, k - 1);
        assert spans[1..][k - 1] == spans[k];
      }
    }
    if k :| 0 <= k < |spans[1..]| && spans[1..][k].0 <= i < spans[1..][k].1 { assert spans[k + 1] == spans[1..][k]; }
  }

  lemma UnfoldBlanked(t: string, spans: seq<Span>, last: nat)
    requires Ordered(spans, last, |t|)
    ensures if spans == [] then Blanked(t, spans, last) == t[last..]
            else Blanked(t, spans, last) == t[last..spans[0].0] + Blank(t[spans[0].0..spans[0].1]) + Blanked(t, spans[1..], spans[0].1)
                 && last <= spans[0].0 < spans[0].1 <= |t| && Ordered(spans[1..], spans[0].1, |t|)
  {
  }

  /** Exactly the spans are blanked: every other character, and every newline, stays. */
  lemma {:induction false} BlankedAt(t: string, spans: seq<Span>, last: nat, i: nat)
    requires Ordered(spans, last, |t|) && last <= i < |t|
    ensures |Blanked(t, spans, last)| == |t| - last
    ensures Blanked(t, spans, last)[i - last] == Shown(t, InSpan(spans, i), i)
    decreases |spans|
  {
    hide *;
    BlankedLength(t, spans, last);
    NotHidden(t, i);
    UnfoldBlanked(t, spans, last);
    if spans == [] {
      InNoSpan(i);
    } else {
      var s, e := spans[0].0, spans[0].1;
      InSpanStep(spans, last, |t|, i);
      BlankedLength(t, spans[1..], e);
      JoinAt(Blanked(t, spans, last), t[last..s], Blank(t[s..e]), Blanked(t, spans[1..], e), i - last);
      if i >= e {
        BlankedAt(t, spans[1..], e, i);
      } else if i >= s {
        BlankAt(t, s, e, i);
      }
    }
  }

  lemma InNoSpan(i: nat)
    ensures !InSpan([], i)
  {
  }

  lemma BlankAt(t: string, s: nat, e: nat, i: nat)
    requires s <= i < e <= |t|
    ensures Blank(t[s..e])[i - s] == Shown(t, true, i)
  {
  }

  lemma BlankedLength(t: string, spans: seq<Span>, last: nat)
    requires Ordered(spans, last, |t|)
    ensures last <= |t| && |Blanked(t, spans, last)| == |t| - last
  {
    BlankedShadows(t, spans, last);
  }

  /** `blank_cfg_test`: the two texts with the test items blanked, or a flag that the file is all test code. */
  method BlankCfgTest(cs: Chars, a: string, b: string) returns (a': string, b': string, whole: bool)
    ensures whole <==> Spans(cs, b, 0, 0).None?
    ensures whole ==> a' == a && b' == b
    ensures !whole ==> a' == Blanked(a, Spans(cs, b, 0, 0).value, 0) && b' == Blanked(b, Spans(cs, b, 0, 0).value, 0)
    ensures Shadows(b', b) && (|a| == |b| ==> Shadows(a', a))
  {
    var spans: seq<Span> := [];
    var pos, upto := 0, 0;
    PrependNone(Spans(cs, b, 0, 0));
    while true
      invariant pos <= |b| && upto <= |b|
      invariant Spans(cs, b, 0, 0) == Prepend(spans, Spans(cs, b, pos, upto))
      decreases |b| - pos
    {
      hide Judge, NextCfg, Blanked, Shadows;
      var m := NextCfg(cs, b, pos);
      if m.None? {
        break;
      }
      pos := m.value.end;
      var verdict := Decide(cs, b, m.value, upto);
      match verdict
      case Skip =>
      case WholeFile =>
        Same(a);
        Same(b);
        return a, b, true;
      case Cut(from, to) =>
        PrependOne(spans, (from, to), Spans(cs, b, pos, to));
        spans := spans + [(from, to)];
        upto := to;
    }
    SpansOrdered(cs, b, 0, 0);
    assert spans + [] == spans;
    whole := false;
    if |a| == |b| { BlankedShadows(a, spans, 0); assert a[0..] == a; }
    BlankedShadows(b, spans, 0);
    assert b[0..] == b;
    a', b' := Blanked(a, spans, 0), Blanked(b, spans, 0);
  }

  lemma Same(s: string)
    ensures Shadows(s, s)
  {
  }

  function Prepend(spans: seq<Span>, r: Option<seq<Span>>): Option<seq<Span>> {
    match r case None => None case Some(rest) => Some(spans + rest)
  }

  lemma PrependNone(r: Option<seq<Span>>)
    ensures Prepend([], r) == r
  {
    if r.Some? { assert [] + r.value == r.value; }
  }

  lemma PrependOne(spans: seq<Span>, s: Span, r: Option<seq<Span>>)
    ensures Prepend(spans, Prepend([s], r)) == Prepend(spans + [s], r)
  {
    if r.Some? { assert spans + ([s] + r.value) == (spans + [s]) + r.value; }
  }

  // ------------------------------------------------------------------ line numbers

  /** Newlines in `s[..n]`. */
  ghost function NewlinesBefore(s: string, n: nat): nat {
    if n == 0 then 0 else NewlinesBefore(s, n - 1) + (if n <= |s| && s[n - 1] == '\n' then 1 else 0)
  }

  /** Where the newlines of `s[..n]` are. */
  function Newlines(s: string, n: nat): seq<nat> {
    if n == 0 then [] else Newlines(s, n - 1) + (if n <= |s| && s[n - 1] == '\n' then [n - 1] else [])
  }

  lemma {:induction false} NewlinesCount(s: string, n: nat)
    ensures |Newlines(s, n)| == NewlinesBefore(s, n)
    ensures Newlines(s, n) != [] ==> Newlines(s, n)[|Newlines(s, n)| - 1] < n
  {
    if n > 0 { NewlinesCount(s, n - 1); }
  }

  lemma {:induction false} NewlinesEnd(s: string, n: nat)
    requires n >= |s|
    ensures Newlines(s, n) == Newlines(s, |s|)
  {
    if n > |s| { NewlinesEnd(s, n - 1); }
  }

  /** The place where `offset` sorts into the list is the number of newlines before it. */
  lemma {:induction false} Rank(s: string, n: nat, k: nat, offset: nat)
    requires offset <= n && k <= |Newlines(s, n)|
    requires k > 0 ==> Newlines(s, n)[k - 1] < offset
    requires k < |Newlines(s, n)| ==> offset <= Newlines(s, n)[k]
    ensures NewlinesBefore(s, offset) == k
  {
    NewlinesCount(s, n);
    if n == offset {
      Below(s, n, k);
    } else if k <= |Newlines(s, n - 1)| {
      Rank(s, n - 1, k, offset);
    }
  }

  lemma {:induction false} Below(s: string, n: nat, k: nat)
    ensures k < |Newlines(s, n)| ==> Newlines(s, n)[k] < n
  {
    if n > 0 { Below(s, n - 1, k); }
  }

  /** One production file: its masked text and where its lines end. */
  class Source {
    const text: string
    const newlines: seq<nat>

    ghost predicate Valid() {
      newlines == Newlines(text, |text|)
    }

    constructor (text: string)
      ensures Valid() && this.text == text
    {
      var found: seq<nat> := [];
      var i := 0;
      while i < |text|
        invariant 0 <= i <= |text| && found == Newlines(text, i)
      {
        if text[i] == '\n' { found := found + [i]; }
        i := i + 1;
      }
      this.text, this.newlines := text, found;
    }

    /** `bisect_left(self.newlines, offset) + 1`. */
    method Line(offset: nat) returns (n: nat)
      requires Valid()
      ensures n == NewlinesBefore(text, offset) + 1
    {
      hide Newlines, NewlinesBefore;
      var lo, hi := 0, |newlines|;
      while lo < hi
        invariant 0 <= lo <= hi <= |newlines|
        invariant lo > 0 ==> newlines[lo - 1] < offset
        invariant hi < |newlines| ==> offset <= newlines[hi]
      {
        var mid := (lo + hi) / 2;
        if newlines[mid] < offset {
          lo := mid + 1;
        } else {
          hi := mid;
        }
      }
      NewlinesEnd(text, offset + |text|);
      Rank(text, offset + |text|, lo, offset);
      return lo + 1;
    }
  }

  lemma {:induction false} ShapeLines(x: string, s: string, n: nat)
    requires SameShape(x, s)
    ensures NewlinesBefore(x, n) == NewlinesBefore(s, n)
  {
    if n > 0 { ShapeLines(x, s, n - 1); }
  }

  lemma ShapeTrans(x: string, y: string, s: string)
    requires Shadows(x, y) && SameShape(y, s)
    ensures SameShape(x, s)
  {
  }

  /** `_load`, then `Source`: a line number in the blanked text is the line number in the file. */
  method Load(cs: Chars, raw: string) returns (a: string, source: Source, whole: bool)
    ensures source.Valid()
    ensures (Unclosed(cs, raw, 0).Some? ==> Fits(raw, Unclosed(cs, raw, 0).value)) ==>
      SameShape(a, raw) && SameShape(source.text, raw)
      && forall offset: nat :: NewlinesBefore(source.text, offset) == NewlinesBefore(raw, offset)
  {
    ghost var lasts := Unclosed(cs, raw, 0).Some? ==> Fits(raw, Unclosed(cs, raw, 0).value);
    hide *;
    var a0, b0 := Mask(cs, raw);
    var a', b', whole' := BlankCfgTest(cs, a0, b0);
    if lasts {
      SameLength(a0, raw, b0);
      ShadowsShape(a0, raw);
      ShapeTrans(b', b0, raw);
      ShapeTrans(a', a0, raw);
      forall offset: nat ensures NewlinesBefore(b', offset) == NewlinesBefore(raw, offset) { ShapeLines(b', raw, offset); }
    }
    source := new Source(b');
    a, whole := a', whole';
  }

  lemma ShadowsShape(x: string, s: string)
    requires Shadows(x, s)
    ensures SameShape(x, s)
  {
  }

  lemma SameLength(a: string, s: string, b: string)
    requires Shadows(a, s) && SameShape(b, s)
    ensures |a| == |b|
  {
  }
}
