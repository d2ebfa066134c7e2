/** The `crate::{..}` loop of `build_graph` in ci/check-module-cycle.py: the first name of every item of the group. */
module CrateGroup {
  import opened RustMask
  import CfgBlank

  /** Braces and commas are no word characters; what starts a word is one. */
  ghost predicate Words(cs: Chars) {
    !cs.word('{') && !cs.word('}') && !cs.word(',') && forall c :: CfgBlank.Starts(c) ==> cs.word(c)
  }

  /** Braces opened less braces closed in `t[open..k]`. */
  ghost function Depth(t: string, open: nat, k: nat): int
    requires k <= |t|
    decreases k
  {
    if k <= open then 0 else Depth(t, open, k - 1) + (if t[k - 1] == '{' then 1 else if t[k - 1] == '}' then -1 else 0)
  }

  /** An item of the group begins behind `s`. */
  ghost predicate Begins(t: string, open: nat, s: nat) {
    open <= s < |t| && (s == open || (t[s] == ',' && Depth(t, open, s) == 1))
  }

  /** Nothing but names of no interest lies between the item's beginning and `k`. */
  ghost predicate Bare(t: string, open: nat, s: nat, k: nat)
    requires k <= |t|
  {
    forall i :: s < i < k ==> t[i] != '{' && !CfgBlank.Starts(t[i]) && !Begins(t, open, i)
  }

  ghost predicate Fresh(t: string, open: nat, k: nat)
    requires k <= |t|
  {
    exists s: nat :: s < k && Begins(t, open, s) && Bare(t, open, s, k)
  }

  /** `k` is where the first name of an item of the group starts. */
  ghost predicate IsHead(t: string, open: nat, k: nat) {
    open < k < |t| && Depth(t, open, k) == 1 && CfgBlank.Starts(t[k]) && Fresh(t, open, k)
  }

  function HeadsFrom(cs: Chars, t: string, j: nat, close: nat, depth: int, want: bool): seq<nat>
    requires close <= |t|
    decreases close - j
  {
    if j >= close then []
    else if t[j] == '{' then HeadsFrom(cs, t, j + 1, close, depth + 1, depth + 1 == 1)
    else if t[j] == '}' then HeadsFrom(cs, t, j + 1, close, depth - 1, want)
    else if t[j] == ',' && depth == 1 then HeadsFrom(cs, t, j + 1, close, depth, true)
    else if want && depth == 1 && CfgBlank.Starts(t[j]) then [j] + HeadsFrom(cs, t, CfgBlank.WordEnd(cs, t, j + 1), close, depth, false)
    else HeadsFrom(cs, t, j + 1, close, depth, want)
  }

  /** The loop has come to `j` inside the group. */
  ghost predicate At(t: string, open: nat, j: nat, close: nat, depth: int, want: bool) {
    open < j <= close <= |t| && depth == Depth(t, open, j) && (j < close ==> depth >= 1) && (want <==> Fresh(t, open, j)) && (want ==> depth <= 1)
  }

  lemma FreshStep(t: string, open: nat, j: nat)
    requires open < j < |t| && open < |t| && t[open] == '{'
    ensures Fresh(t, open, j + 1) <==>
      Begins(t, open, j) || (Fresh(t, open, j) && t[j] != '{' && !CfgBlank.Starts(t[j]))
  {
    hide Begins, CfgBlank.Starts;
    if Fresh(t, open, j + 1) && !Begins(t, open, j) {
      var s: nat :| s < j + 1 && Begins(t, open, s) && Bare(t, open, s, j + 1);
      assert s != j;
      assert Bare(t, open, s, j);
    }
    if Begins(t, open, j) { assert Bare(t, open, j, j + 1); }
    if Fresh(t, open, j) && t[j] != '{' && !CfgBlank.Starts(t[j]) && !Begins(t, open, j) {
      var s: nat :| s < j && Begins(t, open, s) && Bare(t, open, s, j);
      assert Bare(t, open, s, j + 1);
    }
  }

  /** A word holds no brace and no comma, so inside it nothing begins and the depth stays. */
  lemma {:induction false} InsideWord(cs: Chars, t: string, open: nat, j: nat, e: nat, k: nat)
    requires Words(cs) && open < j < k <= e <= |t| && t[open] == '{' && (forall i :: j <= i < e ==> cs.word(t[i])) && CfgBlank.Starts(t[j])
    ensures Depth(t, open, k) == Depth(t, open, j) && !Fresh(t, open, k)
    decreases k
  {
    if k == j + 1 {
      FreshStep(t, open, j);
    } else {
      InsideWord(cs, t, open, j, e, k - 1);
      FreshStep(t, open, k - 1);
    }
  }

  lemma {:induction false} WordChars(cs: Chars, t: string, i: nat)
    requires i <= |t|
    ensures forall k :: i <= k < CfgBlank.WordEnd(cs, t, i) ==> cs.word(t[k])
    decreases |t| - i
  {
    if i < |t| && cs.word(t[i]) { WordChars(cs, t, i + 1); }
  }

  /** Exactly the heads are found, in order. */
  ghost predicate Finds(t: string, open: nat, j: nat, close: nat, heads: seq<nat>) {
    && (forall k :: k in heads <==> j <= k < close && IsHead(t, open, k))
    && (forall a, b :: 0 <= a < b < |heads| ==> heads[a] < heads[b])
  }

  /** `close` is just past the brace that closes the group, or the end of a text that does not close it. */
  ghost predicate IsGroup(t: string, open: nat, close: nat) {
    && open < close <= |t| && t[open] == '{' && (close == |t| || t[close - 1] == '}')
    && forall j :: open < j < close ==> Depth(t, open, j) >= 1
  }

  lemma {:induction false} BalancedGroup(t: string, open: nat, j: nat)
    requires open < j <= |t| && t[open] == '{' && Depth(t, open, j) >= 1 && forall i :: open < i < j ==> Depth(t, open, i) >= 1
    ensures IsGroup(t, open, CfgBlank.BalancedFrom(t, j, Depth(t, open, j), '{', '}'))
    decreases |t| - j
  {
    if j < |t| && !(t[j] == '}' && Depth(t, open, j) == 1) { BalancedGroup(t, open, j + 1); }
  }

  lemma FindsMore(t: string, open: nat, j: nat, e: nat, close: nat, rest: seq<nat>)
    requires j < e <= close && Finds(t, open, e, close, rest) && forall k :: j < k < e ==> !IsHead(t, open, k)
    ensures Finds(t, open, j, close, if IsHead(t, open, j) then [j] + rest else rest)
  {
    hide IsHead;
    forall a | 0 <= a < |rest| ensures e <= rest[a] { assert rest[a] in rest; }
  }

  /** Where the loop goes from `j`: to the next character, or behind the name that starts there. */
  lemma Step(cs: Chars, t: string, open: nat, j: nat, close: nat, depth: int, want: bool) returns (e: nat, depth': int, want': bool)
    requires Words(cs) && IsGroup(t, open, close) && At(t, open, j, close, depth, want) && j < close
    ensures j < e <= close && At(t, open, e, close, depth', want') && forall k :: j < k < e ==> !IsHead(t, open, k)
    ensures var rest := HeadsFrom(cs, t, e, close, depth', want');
      HeadsFrom(cs, t, j, close, depth, want) == if IsHead(t, open, j) then [j] + rest else rest
  {
    hide Fresh, Words;
    FreshStep(t, open, j);
    if want && depth == 1 && CfgBlank.Starts(t[j]) {
      e, depth', want' := CfgBlank.WordEnd(cs, t, j + 1), depth, false;
      WordChars(cs, t, j + 1);
      NameFits(cs, t, open, j, close, e);
      forall k | j < k <= e ensures Depth(t, open, k) == depth && !Fresh(t, open, k) { InsideWord(cs, t, open, j, e, k); }
    } else {
      e := j + 1;
      depth' := if t[j] == '{' then depth + 1 else if t[j] == '}' then depth - 1 else depth;
      want' := if t[j] == '{' then depth + 1 == 1 else if t[j] == ',' && depth == 1 then true else want;
    }
  }

  lemma NameFits(cs: Chars, t: string, open: nat, j: nat, close: nat, e: nat)
    requires Words(cs) && IsGroup(t, open, close) && open < j < close && j < e <= |t| && CfgBlank.Starts(t[j])
    requires forall k :: j < k < e ==> cs.word(t[k])
    ensures e <= close && forall k :: j <= k < e ==> cs.word(t[k])
  {
  }

  /** From any point of the loop on, exactly the heads that are left are found. */
  lemma {:induction false} HeadsFound(cs: Chars, t: string, open: nat, j: nat, close: nat, depth: int, want: bool)
    requires Words(cs) && IsGroup(t, open, close) && At(t, open, j, close, depth, want)
    ensures Finds(t, open, j, close, HeadsFrom(cs, t, j, close, depth, want))
    decreases close - j
  {
    assert close <= |t|;
    hide Words, IsGroup, At, IsHead;
    if j < close {
      var e, depth', want' := Step(cs, t, open, j, close, depth, want);
      HeadsFound(cs, t, open, e, close, depth', want');
      FindsMore(t, open, j, e, close, HeadsFrom(cs, t, e, close, depth', want'));
    }
  }

  lemma Opened(cs: Chars, t: string, open: nat)
    requires open < |t| && t[open] == '{'
    ensures IsGroup(t, open, CfgBlank.BalancedFrom(t, open, 0, '{', '}'))
    ensures At(t, open, open + 1, CfgBlank.BalancedFrom(t, open, 0, '{', '}'), 1, true)
  {
    assert Depth(t, open, open) == 0 && Depth(t, open, open + 1) == 1;
    BalancedGroup(t, open, open + 1);
    assert Begins(t, open, open) && Bare(t, open, open, open + 1);
  }

  /** The loop over the group that opens at `open`: where the first name of each item starts. */
  method Heads(cs: Chars, t: string, open: nat) returns (heads: seq<nat>)
    requires Words(cs) && open < |t| && t[open] == '{'
    ensures Finds(t, open, open + 1, CfgBlank.BalancedFrom(t, open, 0, '{', '}'), heads)
  {
    var close := CfgBlank.Balanced(t, open, '{', '}');
    Opened(cs, t, open);
    HeadsFound(cs, t, open, open + 1, close, 1, true);
    assert HeadsFrom(cs, t, open, close, 0, true) == HeadsFrom(cs, t, open + 1, close, 1, true);
    hide Finds, At, IsGroup, Words;
    var depth, want, j := 0, true, open;
    heads := [];
    while j < close
      invariant open <= j <= |t|
      invariant HeadsFrom(cs, t, open, close, 0, true) == heads + HeadsFrom(cs, t, j, close, depth, want)
      decreases |t| - j
    {
      var c := t[j];
      if c == '{' {
        depth := depth + 1;
        want := depth == 1;
      } else if c == '}' {
        depth := depth - 1;
      } else if c == ',' && depth == 1 {
        want := true;
      } else if want && depth == 1 && CfgBlank.Starts(c) {
        heads := heads + [j];
        j := CfgBlank.WordEnd(cs, t, j + 1);
        want := false;
        continue;
      }
      j := j + 1;
    }
    assert heads + [] == heads;
  }
}
