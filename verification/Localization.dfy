/** `matching` and `arguments` of ci/check-localization.py: bracket groups in a token list. */
module Localization {

  datatype Token = Token(text: string, line: nat, literal: bool)

  datatype Error = NotAnOpener | Unbalanced(line: nat) | Unterminated(line: nat)
  datatype Result<+T> = Ok(value: T) | Err(error: Error)

  // ------------------------------------------------------------------ tokens as brackets

  predicate OpenText(text: string) {
    text == "(" || text == "[" || text == "{"
  }

  predicate Opens(t: Token) {
    !t.literal && OpenText(t.text)
  }

  predicate Closes(t: Token) {
    !t.literal && (t.text == ")" || t.text == "]" || t.text == "}")
  }

  function Closer(text: string): string {
    if text == "(" then ")" else if text == "[" then "]" else "}"
  }

  predicate Pair(open: Token, close: Token) {
    Opens(open) && Closes(close) && close.text == Closer(open.text)
  }

  predicate Comma(t: Token) {
    !t.literal && t.text == ","
  }

  // ------------------------------------------------------------------ well-nested words

  /** The grammar of `ts[a..b]`: plain tokens and closed groups, one after the other. */
  ghost predicate Nested(ts: seq<Token>, a: nat, b: nat)
    requires a <= b <= |ts|
    decreases b - a
  {
    || a == b
    || (!Opens(ts[a]) && !Closes(ts[a]) && Nested(ts, a + 1, b))
    || (exists k :: a < k < b && Pair(ts[a], ts[k]) && Nested(ts, a + 1, k) && Nested(ts, k + 1, b))
  }

  /** The bracket text at `start` begins a group that `end` closes; `start` may itself be a literal. */
  ghost predicate Group(ts: seq<Token>, start: nat, end: nat) {
    && start < end < |ts| && OpenText(ts[start].text)
    && Closes(ts[end]) && ts[end].text == Closer(ts[start].text)
    && Nested(ts, start + 1, end)
  }

  // ------------------------------------------------------------------ the stack machine

  /** What `matching` does with its stack of awaited closers, from token `i` on. */
  function Scan(ts: seq<Token>, i: nat, stack: seq<string>, start: nat): (r: Result<nat>)
    requires i <= |ts| && stack != [] && start < |ts|
    ensures r.Ok? ==> i <= r.value < |ts|
    decreases |ts| - i
  {
    if i == |ts| then Err(Unterminated(ts[start].line))
    else
      var t := ts[i];
      if Opens(t) then Scan(ts, i + 1, stack + [Closer(t.text)], start)
      else if Closes(t) then
        if t.text != stack[|stack| - 1] then Err(Unbalanced(t.line))
        else if |stack| == 1 then Ok(i)
        else Scan(ts, i + 1, stack[..|stack| - 1], start)
      else Scan(ts, i + 1, stack, start)
  }

  function MatchingSpec(ts: seq<Token>, start: nat): (r: Result<nat>)
    requires start < |ts|
    ensures r.Ok? ==> start < r.value < |ts|
  {
    if OpenText(ts[start].text) then Scan(ts, start + 1, [Closer(ts[start].text)], start) else Err(NotAnOpener)
  }

  method Matching(ts: seq<Token>, start: nat) returns (r: Result<nat>)
    requires start < |ts|
    ensures r == MatchingSpec(ts, start)
    ensures r.Ok? ==> Group(ts, start, r.value)
    ensures r.Err? ==> forall end :: !Group(ts, start, end)
  {
    forall end { MatchingIsGroup(ts, start, end); }
    if MatchingSpec(ts, start).Ok? { MatchingIsGroup(ts, start, MatchingSpec(ts, start).value); }
    if !OpenText(ts[start].text) {
      return Err(NotAnOpener);
    }
    var stack := [Closer(ts[start].text)];
    var i := start + 1;
    while i < |ts|
      invariant start < i <= |ts| && stack != []
      invariant MatchingSpec(ts, start) == Scan(ts, i, stack, start)
    {
      var t := ts[i];
      if Opens(t) {
        stack := stack + [Closer(t.text)];
      } else if Closes(t) {
        var top := stack[|stack| - 1];
        stack := stack[..|stack| - 1];
        if t.text != top {
          return Err(Unbalanced(t.line));
        }
        if stack == [] {
          return Ok(i);
        }
      }
      i := i + 1;
    }
    return Err(Unterminated(ts[start].line));
  }

  /** A well-nested stretch leaves the stack as it was. */
  lemma {:induction false} ScanNested(ts: seq<Token>, a: nat, b: nat, stack: seq<string>, start: nat)
    requires a <= b <= |ts| && Nested(ts, a, b) && stack != [] && start < |ts|
    ensures Scan(ts, a, stack, start) == Scan(ts, b, stack, start)
    decreases b - a
  {
    if a < b {
      if !Opens(ts[a]) && !Closes(ts[a]) && Nested(ts, a + 1, b) {
        ScanNested(ts, a + 1, b, stack, start);
      } else {
        var k :| a < k < b && Pair(ts[a], ts[k]) && Nested(ts, a + 1, k) && Nested(ts, k + 1, b);
        var inner := stack + [Closer(ts[a].text)];
        assert inner[..|inner| - 1] == stack;
        ScanNested(ts, a + 1, k, inner, start);
        ScanNested(ts, k + 1, b, stack, start);
      }
    }
  }

  /** When the machine succeeds, a well-nested stretch ends where it pops the top of the stack. */
  lemma {:induction false} ScanPops(ts: seq<Token>, a: nat, stack: seq<string>, start: nat) returns (j: nat)
    requires a <= |ts| && stack != [] && start < |ts| && Scan(ts, a, stack, start).Ok?
    ensures a <= j < |ts| && Nested(ts, a, j) && Closes(ts[j]) && ts[j].text == stack[|stack| - 1]
    ensures if |stack| == 1 then Scan(ts, a, stack, start) == Ok(j)
            else Scan(ts, a, stack, start) == Scan(ts, j + 1, stack[..|stack| - 1], start)
    decreases |ts| - a
  {
    if Opens(ts[a]) {
      var inner := stack + [Closer(ts[a].text)];
      assert inner[..|inner| - 1] == stack;
      var k := ScanPops(ts, a + 1, inner, start);
      j := ScanPops(ts, k + 1, stack, start);
      assert Pair(ts[a], ts[k]);
    } else if Closes(ts[a]) {
      j := a;
    } else {
      j := ScanPops(ts, a + 1, stack, start);
    }
  }

  /** `matching` returns `end` exactly when the group opened at `start` closes there as a well-nested word. */
  lemma MatchingIsGroup(ts: seq<Token>, start: nat, end: nat)
    requires start < |ts|
    ensures MatchingSpec(ts, start) == Ok(end) <==> Group(ts, start, end)
  {
    if MatchingSpec(ts, start).Ok? {
      var j := ScanPops(ts, start + 1, [Closer(ts[start].text)], start);
    }
    if Group(ts, start, end) {
      ScanNested(ts, start + 1, end, [Closer(ts[start].text)], start);
    }
  }

  // ------------------------------------------------------------------ splitting the arguments

  type Range = (nat, nat)

  /** `arguments` from token `i`, with the current argument begun at `first`. */
  function ArgsFrom(ts: seq<Token>, i: nat, first: nat, end: nat): Result<seq<Range>>
    requires end <= |ts|
    decreases end - i
  {
    if i >= end then Ok(if first < end then [(first, end)] else [])
    else if Opens(ts[i]) then
      match MatchingSpec(ts, i)
      case Err(e) => Err(e)
      case Ok(m) => ArgsFrom(ts, m + 1, first, end)
    else if Comma(ts[i]) then
      match ArgsFrom(ts, i + 1, i + 1, end)
      case Err(e) => Err(e)
      case Ok(rest) => Ok([(first, i)] + rest)
    else ArgsFrom(ts, i + 1, first, end)
  }

  /** Brackets opened in `ts[a..b]` less brackets closed there. */
  ghost function Depth(ts: seq<Token>, a: nat, b: nat): int
    requires a <= b <= |ts|
    decreases b
  {
    if a == b then 0
    else Depth(ts, a, b - 1) + (if Opens(ts[b - 1]) then 1 else if Closes(ts[b - 1]) then -1 else 0)
  }

  lemma {:induction false} DepthAdd(ts: seq<Token>, a: nat, m: nat, b: nat)
    requires a <= m <= b <= |ts|
    ensures Depth(ts, a, b) == Depth(ts, a, m) + Depth(ts, m, b)
    decreases b
  {
    if m < b { DepthAdd(ts, a, m, b - 1); }
  }

  lemma {:induction false} NestedZero(ts: seq<Token>, a: nat, b: nat)
    requires a <= b <= |ts| && Nested(ts, a, b)
    ensures Depth(ts, a, b) == 0
    decreases b - a
  {
    if a < b {
      DepthAdd(ts, a, a + 1, b);
      if !Opens(ts[a]) && !Closes(ts[a]) && Nested(ts, a + 1, b) {
        NestedZero(ts, a + 1, b);
      } else {
        var k :| a < k < b && Pair(ts[a], ts[k]) && Nested(ts, a + 1, k) && Nested(ts, k + 1, b);
        NestedZero(ts, a + 1, k);
        NestedZero(ts, k + 1, b);
        DepthAdd(ts, a + 1, k + 1, b);
      }
    }
  }

  /** A well-nested stretch never goes below the depth it begins at. */
  lemma {:induction false} NestedDepth(ts: seq<Token>, a: nat, b: nat, c: nat)
    requires a <= c <= b <= |ts| && Nested(ts, a, b)
    ensures Depth(ts, a, c) >= 0
    decreases b - a
  {
    if a < c {
      DepthAdd(ts, a, a + 1, c);
      if !Opens(ts[a]) && !Closes(ts[a]) && Nested(ts, a + 1, b) {
        NestedDepth(ts, a + 1, b, c);
      } else {
        var k :| a < k < b && Pair(ts[a], ts[k]) && Nested(ts, a + 1, k) && Nested(ts, k + 1, b);
        if c <= k {
          NestedDepth(ts, a + 1, k, c);
        } else {
          NestedZero(ts, a + 1, k);
          NestedDepth(ts, k + 1, b, c);
          DepthAdd(ts, a + 1, k + 1, c);
        }
      }
    }
  }

  /** A comma outside every bracket opened since `base`. */
  ghost predicate Separator(ts: seq<Token>, base: nat, k: nat) {
    base <= k < |ts| && Comma(ts[k]) && Depth(ts, base, k) == 0
  }

  /** The ranges cover `ts[from..end]` in order, cut at exactly its separators; a last empty one is dropped. */
  ghost predicate Split(ts: seq<Token>, base: nat, from: nat, end: nat, args: seq<Range>) {
    && (args == [] ==> from == end)
    && (args != [] ==> args[0].0 == from)
    && (args != [] ==> args[|args| - 1].1 == end || (args[|args| - 1].1 + 1 == end && Separator(ts, base, end - 1)))
    && (forall j :: 0 <= j < |args| ==> args[j].0 <= args[j].1 <= end)
    && (forall j :: 0 <= j < |args| - 1 ==> args[j + 1].0 == args[j].1 + 1)
    && (forall k :: from <= k < end ==> (Separator(ts, base, k) <==> exists j :: 0 <= j < |args| && args[j].1 == k))
  }

  lemma SplitCons(ts: seq<Token>, base: nat, first: nat, i: nat, end: nat, rest: seq<Range>)
    requires base <= first <= i < end <= |ts| && Split(ts, base, i + 1, end, rest) && Separator(ts, base, i)
    requires forall k :: first <= k < i ==> !Separator(ts, base, k)
    ensures Split(ts, base, first, end, [(first, i)] + rest)
  {
    var args := [(first, i)] + rest;
    assert forall j :: 1 <= j < |args| ==> args[j] == rest[j - 1];
    forall k | first <= k < end
      ensures Separator(ts, base, k) <==> exists j :: 0 <= j < |args| && args[j].1 == k
    {
      if k == i {
        assert args[0].1 == k;
      } else if k > i && Separator(ts, base, k) {
        var j :| 0 <= j < |rest| && rest[j].1 == k;
        assert args[j + 1].1 == k;
      }
      if j :| 0 <= j < |args| && args[j].1 == k {
        if j > 0 {
          assert rest[j - 1].1 == k;
          RestStarts(ts, base, i + 1, end, rest, j - 1);
        }
      }
    }
  }

  lemma {:induction false} RestStarts(ts: seq<Token>, base: nat, from: nat, end: nat, rest: seq<Range>, j: nat)
    requires Split(ts, base, from, end, rest) && j < |rest|
    ensures from <= rest[j].0
  {
    if j > 0 {
      RestStarts(ts, base, from, end, rest, j - 1);
      assert rest[(j - 1) + 1].0 == rest[j - 1].1 + 1;
    }
  }

  /** Nothing inside a bracket group is a separator. */
  lemma GroupHidesCommas(ts: seq<Token>, base: nat, i: nat, m: nat, k: nat)
    requires base <= i < m < |ts| && Opens(ts[i]) && Closes(ts[m]) && Nested(ts, i + 1, m) && Depth(ts, base, i) == 0 && i <= k <= m
    ensures !Separator(ts, base, k)
    ensures Depth(ts, base, m + 1) == 0
  {
    NestedDepth(ts, i + 1, m, if k > i then k else m);
    NestedZero(ts, i + 1, m);
    DepthAdd(ts, base, i + 1, m);
    if k > i { DepthAdd(ts, base, i + 1, k); }
  }

  /** From a position outside every inner group, `arguments` succeeds and splits what is left. */
  lemma {:induction false} ArgsSplit(ts: seq<Token>, base: nat, i: nat, first: nat, end: nat)
    requires base <= first <= i <= end <= |ts| && Nested(ts, i, end) && Depth(ts, base, i) == 0
    requires forall k :: first <= k < i ==> !Separator(ts, base, k)
    ensures ArgsFrom(ts, i, first, end).Ok? && Split(ts, base, first, end, ArgsFrom(ts, i, first, end).value)
    decreases end - i
  {
    if i == end {
    } else if Opens(ts[i]) {
      var m :| i < m < end && Pair(ts[i], ts[m]) && Nested(ts, i + 1, m) && Nested(ts, m + 1, end);
      MatchingIsGroup(ts, i, m);
      forall k | i <= k <= m ensures !Separator(ts, base, k) { GroupHidesCommas(ts, base, i, m, k); }
      GroupHidesCommas(ts, base, i, m, m);
      ArgsSplit(ts, base, m + 1, first, end);
    } else {
      assert Nested(ts, i + 1, end);
      if Comma(ts[i]) {
        ArgsSplit(ts, base, i + 1, i + 1, end);
        SplitCons(ts, base, first, i, end, ArgsFrom(ts, i + 1, i + 1, end).value);
      } else {
        ArgsSplit(ts, base, i + 1, first, end);
      }
    }
  }

  /** The ranges with the commas between them put back. */
  ghost function Rejoined(ts: seq<Token>, args: seq<Range>): seq<Token>
    requires forall j :: 0 <= j < |args| ==> args[j].0 <= args[j].1 <= |ts|
    requires forall j :: 0 <= j < |args| - 1 ==> args[j].1 < |ts|
  {
    if args == [] then []
    else if |args| == 1 then ts[args[0].0..args[0].1]
    else ts[args[0].0..args[0].1] + [ts[args[0].1]] + Rejoined(ts, args[1..])
  }

  lemma {:induction false} RejoinChain(ts: seq<Token>, args: seq<Range>)
    requires args != [] && forall j :: 0 <= j < |args| ==> args[j].0 <= args[j].1 <= |ts|
    requires forall j :: 0 <= j < |args| - 1 ==> args[j].1 < |ts| && args[j + 1].0 == args[j].1 + 1
    ensures args[0].0 <= args[|args| - 1].1 && Rejoined(ts, args) == ts[args[0].0..args[|args| - 1].1]
    decreases |args|
  {
    if |args| > 1 {
      var rest := args[1..];
      forall j | 0 <= j < |rest| - 1
        ensures rest[j].1 < |ts| && rest[j + 1].0 == rest[j].1 + 1
      {
        assert args[(j + 1) + 1].0 == args[j + 1].1 + 1;
      }
      RejoinChain(ts, rest);
      var a, m, b := args[0].0, args[0].1, args[|args| - 1].1;
      assert args[0 + 1].0 == m + 1;
      assert ts[a..b] == ts[a..m] + [ts[m]] + ts[m + 1..b];
    }
  }

  /** Putting the commas back gives the stretch, up to one trailing comma. */
  lemma SplitRejoins(ts: seq<Token>, base: nat, from: nat, end: nat, args: seq<Range>)
    requires from <= end <= |ts| && base <= from && Split(ts, base, from, end, args)
    ensures forall j :: 0 <= j < |args| - 1 ==> args[j].1 < |ts|
    ensures Rejoined(ts, args) == ts[from..end]
         || (from < end && Separator(ts, base, end - 1) && Rejoined(ts, args) == ts[from..end - 1])
  {
    hide Separator;
    if args != [] {
      forall j | 0 <= j < |args| - 1
        ensures args[j].1 < |ts| && args[j + 1].0 == args[j].1 + 1
      {
        assert args[j + 1].0 <= args[j + 1].1 <= end;
      }
      RejoinChain(ts, args);
    } else {
      assert ts[from..end] == [];
    }
  }

  /** Inside a group `arguments` never fails, and cuts at exactly the commas at depth zero. */
  lemma ArgumentsOfGroup(ts: seq<Token>, start: nat, end: nat)
    requires Group(ts, start, end)
    ensures ArgsFrom(ts, start + 1, start + 1, end).Ok?
    ensures Split(ts, start + 1, start + 1, end, ArgsFrom(ts, start + 1, start + 1, end).value)
  {
    ArgsSplit(ts, start + 1, start + 1, start + 1, end);
  }

  method Arguments(ts: seq<Token>, start: nat, end: nat) returns (r: Result<seq<Range>>)
    requires start < |ts| && end <= |ts|
    ensures r == ArgsFrom(ts, start + 1, start + 1, end)
    ensures Group(ts, start, end) ==> r.Ok? && Split(ts, start + 1, start + 1, end, r.value)
  {
    if Group(ts, start, end) { ArgumentsOfGroup(ts, start, end); }
    var args: seq<Range> := [];
    var first, i := start + 1, start + 1;
    PrependNone(ArgsFrom(ts, i, first, end));
    while i < end
      invariant start < i && start < first
      invariant ArgsFrom(ts, start + 1, start + 1, end) == Prepend(args, ArgsFrom(ts, i, first, end))
      decreases end - i
    {
      if Opens(ts[i]) {
        var m := Matching(ts, i);
        if m.Err? {
          return Err(m.error);
        }
        i := m.value + 1;
      } else if Comma(ts[i]) {
        PrependOne(args, (first, i), ArgsFrom(ts, i + 1, i + 1, end));
        args := args + [(first, i)];
        first, i := i + 1, i + 1;
      } else {
        i := i + 1;
      }
    }
    assert args + [] == args;
    if first < end {
      args := args + [(first, end)];
    }
    return Ok(args);
  }

  function Prepend(args: seq<Range>, r: Result<seq<Range>>): Result<seq<Range>> {
    match r case Err(e) => Err(e) case Ok(rest) => Ok(args + rest)
  }

  lemma PrependNone(r: Result<seq<Range>>)
    ensures Prepend([], r) == r
  {
    if r.Ok? { assert [] + r.value == r.value; }
  }

  lemma PrependOne(args: seq<Range>, a: Range, r: Result<seq<Range>>)
    ensures Prepend(args, Prepend([a], r)) == Prepend(args + [a], r)
  {
    if r.Ok? { assert args + ([a] + r.value) == (args + [a]) + r.value; }
  }
}
