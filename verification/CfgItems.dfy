/** What `_item_end` and `blank_cfg_test` of ci/check-module-cycle.py come to, read off the text. */
module CfgItems {
  import opened Options
  import opened Text
  import opened RustMask
  import opened CfgBlank
  import CfgTest

  /** None of the characters the expressions spell out counts as space. */
  ghost predicate Plain(cs: Chars) {
    forall c :: c in "#![(cp" ==> !cs.space(c)
  }

  ghost predicate Spaces(cs: Chars, s: string, i: nat, j: nat) {
    i <= j <= |s| && forall k :: i <= k < j ==> cs.space(s[k])
  }

  /** The space from `i` on ends at `j`. */
  ghost predicate SpaceEnds(cs: Chars, s: string, i: nat, j: nat) {
    Spaces(cs, s, i, j) && (j < |s| ==> !cs.space(s[j]))
  }

  lemma {:induction false} SkipEnds(cs: Chars, s: string, i: nat)
    requires i <= |s|
    ensures SpaceEnds(cs, s, i, SkipSpace(cs, s, i))
    decreases |s| - i
  {
    if i < |s| && cs.space(s[i]) { SkipEnds(cs, s, i + 1); }
  }

  /** Any run of space that stops where none goes on is the one that is skipped. */
  lemma SkipIs(cs: Chars, s: string, i: nat, j: nat)
    requires SpaceEnds(cs, s, i, j)
    ensures SkipSpace(cs, s, i) == j
  {
    SkipEnds(cs, s, i);
    hide SkipSpace;
  }

  // ------------------------------------------------------------------ brackets

  /** `e` is just past the bracket that closes the one at `i`, or the end of the text when none does. */
  ghost predicate Encloses(s: string, i: nat, e: nat, open: char, close: char) {
    && i <= e <= |s|
    && ((i < e && FirstClose(s, i, e - 1, open, close)) || (e == |s| && forall k: nat :: !FirstClose(s, i, k, open, close)))
  }

  lemma BalancedEncloses(s: string, i: nat, e: nat, open: char, close: char)
    requires i <= |s| && open != close
    ensures BalancedFrom(s, i, 0, open, close) == e <==> Encloses(s, i, e, open, close)
  {
    BalancedIsFirst(s, i, i, open, close);
    hide BalancedFrom, Level;
    assert Level(s, i, i, open, close) == 0 by { NoLevel(s, i, open, close); }
    var r := BalancedFrom(s, i, 0, open, close);
    if k: nat :| FirstClose(s, i, k, open, close) {
      assert r == k + 1;
    }
  }

  lemma NoLevel(s: string, i: nat, open: char, close: char)
    requires i <= |s|
    ensures Level(s, i, i, open, close) == 0
  {
  }

  // ------------------------------------------------------------------ attributes

  /** `#`, perhaps `!`, and the bracket at `b`, with space between. */
  ghost predicate HashOpens(cs: Chars, s: string, i: nat, b: nat) {
    && i < b < |s| && s[i] == '#' && s[b] == '['
    && (Spaces(cs, s, i + 1, b) || exists m :: i < m < b && s[m] == '!' && Spaces(cs, s, i + 1, m) && Spaces(cs, s, m + 1, b))
  }

  ghost predicate Attribute(cs: Chars, s: string, i: nat, e: nat) {
    exists b: nat :: HashOpens(cs, s, i, b) && Encloses(s, b, e, '[', ']')
  }

  /** Between `i` and `a` there are attributes and space, and no further attribute begins at `a`. */
  ghost predicate Attributes(cs: Chars, s: string, i: nat, a: nat)
    decreases |s| - i
  {
    || (exists h: nat, e: nat :: i <= h < e <= |s| && SpaceEnds(cs, s, i, h) && Attribute(cs, s, h, e) && Attributes(cs, s, e, a))
    || (SpaceEnds(cs, s, i, a) && forall e: nat :: !Attribute(cs, s, a, e))
  }

  lemma HashOpensIs(cs: Chars, s: string, i: nat, b: nat)
    requires Plain(cs) && HashOpens(cs, s, i, b)
    ensures b == BracketAt(cs, s, i)
  {
    assert !cs.space('[') && !cs.space('!');
    hide SkipSpace;
    if Spaces(cs, s, i + 1, b) {
      SkipIs(cs, s, i + 1, b);
    } else {
      var m :| i < m < b && s[m] == '!' && Spaces(cs, s, i + 1, m) && Spaces(cs, s, m + 1, b);
      SkipIs(cs, s, i + 1, m);
      SkipIs(cs, s, m + 1, b);
    }
  }

  lemma BracketOpens(cs: Chars, s: string, i: nat)
    requires i < |s| && s[i] == '#' && BracketAt(cs, s, i) < |s| && s[BracketAt(cs, s, i)] == '['
    ensures HashOpens(cs, s, i, BracketAt(cs, s, i))
  {
    hide SkipSpace;
    var j := SkipSpace(cs, s, i + 1);
    SkipEnds(cs, s, i + 1);
    if j < |s| && s[j] == '!' { SkipEnds(cs, s, j + 1); }
  }

  lemma HashOpensAt(cs: Chars, s: string, i: nat, b: nat)
    requires Plain(cs) && i < |s|
    ensures HashOpens(cs, s, i, b) <==> s[i] == '#' && b == BracketAt(cs, s, i) && b < |s| && s[b] == '['
  {
    hide BracketAt;
    if HashOpens(cs, s, i, b) { HashOpensIs(cs, s, i, b); }
    if s[i] == '#' && b == BracketAt(cs, s, i) && b < |s| && s[b] == '[' { BracketOpens(cs, s, i); }
  }

  lemma AttributeAt(cs: Chars, s: string, i: nat, e: nat)
    requires Plain(cs)
    ensures Attribute(cs, s, i, e) <==>
      i < |s| && s[i] == '#' && BracketAt(cs, s, i) < |s| && s[BracketAt(cs, s, i)] == '['
      && e == BalancedFrom(s, BracketAt(cs, s, i), 0, '[', ']')
  {
    hide BracketAt, HashOpens, Encloses, BalancedFrom;
    if i < |s| {
      forall b: nat ensures HashOpens(cs, s, i, b) <==> s[i] == '#' && b == BracketAt(cs, s, i) && b < |s| && s[b] == '[' {
        HashOpensAt(cs, s, i, b);
      }
      if BracketAt(cs, s, i) < |s| { BalancedEncloses(s, BracketAt(cs, s, i), e, '[', ']'); }
    } else {
      forall b: nat ensures !HashOpens(cs, s, i, b) { OnText(cs, s, i, b); }
    }
  }

  lemma OnText(cs: Chars, s: string, i: nat, b: nat)
    ensures HashOpens(cs, s, i, b) ==> i < |s|
  {
  }

  lemma UnfoldSkip(cs: Chars, s: string, i: nat)
    requires i <= |s|
    ensures var k := SkipSpace(cs, s, i);
      SkipAttributes(cs, s, i) ==
        if k < |s| && s[k] == '#' && BracketAt(cs, s, k) < |s| && s[BracketAt(cs, s, k)] == '['
        then SkipAttributes(cs, s, BalancedFrom(s, BracketAt(cs, s, k), 0, '[', ']')) else k
  {
    hide SkipSpace, BalancedFrom, BracketAt;
  }

  /** The first loop stops behind the attributes. */
  lemma {:induction false} AttributesEnd(cs: Chars, s: string, i: nat, a: nat)
    requires Plain(cs) && i <= |s|
    ensures Attributes(cs, s, i, a) <==> a == SkipAttributes(cs, s, i)
    decreases |s| - i
  {
    hide SkipSpace, BracketAt, BalancedFrom, Attribute, SkipAttributes;
    var k := SkipSpace(cs, s, i);
    SkipEnds(cs, s, i);
    UnfoldSkip(cs, s, i);
    forall h: nat ensures SpaceEnds(cs, s, i, h) <==> h == k { if SpaceEnds(cs, s, i, h) { SkipIs(cs, s, i, h); } }
    forall e: nat ensures Attribute(cs, s, k, e) <==>
      k < |s| && s[k] == '#' && BracketAt(cs, s, k) < |s| && s[BracketAt(cs, s, k)] == '['
      && e == BalancedFrom(s, BracketAt(cs, s, k), 0, '[', ']')
    {
      AttributeAt(cs, s, k, e);
    }
    hide SpaceEnds;
    if k < |s| && s[k] == '#' && BracketAt(cs, s, k) < |s| && s[BracketAt(cs, s, k)] == '[' {
      var e := BalancedFrom(s, BracketAt(cs, s, k), 0, '[', ']');
      AttributesEnd(cs, s, e, a);
      assert Attribute(cs, s, k, e);
    }
  }

  // ------------------------------------------------------------------ the word an item begins with

  /** `pub`, perhaps with a parenthesis, and the space behind each. */
  ghost predicate Pub(cs: Chars, v: string) {
    && "pub" <= v
    && exists n: nat :: 3 <= n <= |v| && Spaces(cs, v, 3, n) && (n == |v| || Restricted(cs, v, n))
  }

  /** A parenthesis from `n` to the first closer, then space to the end. */
  ghost predicate Restricted(cs: Chars, v: string, n: nat) {
    && n < |v| && v[n] == '('
    && exists c: nat :: n < c < |v| && v[c] == ')' && (forall k :: n < k < c ==> v[k] != ')') && Spaces(cs, v, c + 1, |v|)
  }

  /** The item reads `v`, a visibility or nothing, then the whole word `w`. */
  ghost predicate Reads(cs: Chars, head: string, v: string, w: string) {
    && v + w <= head && (if v == "" then !("pub" <= head) else Pub(cs, v))
    && w != "" && Starts(w[0]) && (forall k :: 0 < k < |w| ==> cs.word(w[k]))
    && (|v + w| < |head| ==> !cs.word(head[|v + w|]))
  }

  /** No letter that begins a word is space or a parenthesis. */
  ghost predicate Lettered(cs: Chars) {
    Plain(cs) && forall c :: Starts(c) ==> !cs.space(c)
  }

  lemma {:induction false} WordEnds(cs: Chars, s: string, i: nat, e: nat)
    requires i <= e <= |s| && (forall k :: i <= k < e ==> cs.word(s[k])) && (e < |s| ==> !cs.word(s[e]))
    ensures WordEnd(cs, s, i) == e
    decreases e - i
  {
    if i < e { WordEnds(cs, s, i + 1, e); }
  }

  lemma {:induction false} WordRun(cs: Chars, s: string, i: nat)
    requires i <= |s|
    ensures var e := WordEnd(cs, s, i); (forall k :: i <= k < e ==> cs.word(s[k])) && (e < |s| ==> !cs.word(s[e]))
    decreases |s| - i
  {
    if i < |s| && cs.word(s[i]) { WordRun(cs, s, i + 1); }
  }

  /** The first word of a text is the one it begins with. */
  lemma FirstWordIs(cs: Chars, s: string, w: string)
    ensures w != "" && FirstWord(cs, s) == w <==>
      w != "" && w <= s && Starts(w[0]) && (forall k :: 0 < k < |w| ==> cs.word(w[k])) && (|w| < |s| ==> !cs.word(s[|w|]))
  {
    hide WordEnd;
    if s != "" && Starts(s[0]) {
      WordRun(cs, s, 1);
      if w != "" && w <= s && (forall k :: 0 < k < |w| ==> cs.word(w[k])) && (|w| < |s| ==> !cs.word(s[|w|])) {
        assert forall k :: 0 < k < |w| ==> s[k] == w[k];
        WordEnds(cs, s, 1, |w|);
        assert s[..|w|] == w;
      }
    }
  }

  lemma FindsFirst(t: string, c: char, i: nat)
    ensures match Find(t, [c], i)
      case None => forall k :: i <= k < |t| ==> t[k] != c
      case Some(k) => k < |t| && t[k] == c && forall j :: i <= j < k ==> t[j] != c
    decreases |t| - i
  {
    if i < |t| {
      assert t[i..i + 1] == [t[i]];
      FindsFirst(t, c, i + 1);
    }
  }

  lemma UnfoldVisibility(cs: Chars, head: string)
    requires "pub" <= head
    ensures SkipSpace(cs, head, 3) <= |head|
    ensures var k := SkipSpace(cs, head, 3);
      SkipVisibility(cs, head) == match (if At(head, k) == Some('(') then Find(head, ")", k) else None)
        case None => head[k..]
        case Some(c) => head[SkipSpace(cs, head, c + 1)..]
  {
    hide SkipSpace, Find;
    NoPub(cs, head);
  }

  lemma SkipTo(cs: Chars, v: string, head: string, i: nat, j: nat)
    requires v <= head && Spaces(cs, v, i, j) && j < |head| && !cs.space(head[j])
    ensures SkipSpace(cs, head, i) == j
  {
    assert forall k :: 0 <= k < |v| ==> head[k] == v[k];
    SkipIs(cs, head, i, j);
    hide SkipSpace;
  }

  lemma FirstParen(v: string, head: string, n: nat, c: nat)
    requires v <= head && n < c < |v| && v[n] == '(' && v[c] == ')' && forall k :: n < k < c ==> v[k] != ')'
    ensures At(head, n) == Some('(') && Find(head, ")", n) == Some(c)
  {
    assert forall k :: 0 <= k < |v| ==> head[k] == v[k];
    FindsFirst(head, ')', n);
    hide Find;
  }

  lemma ParenOf(cs: Chars, v: string, head: string, n: nat) returns (c: nat)
    requires v <= head && Restricted(cs, v, n)
    ensures n < |v| && head[n] == '(' && c < |v| && Spaces(cs, v, c + 1, |v|)
    ensures At(head, n) == Some('(') && Find(head, ")", n) == Some(c)
  {
    hide Find, Spaces;
    c :| n < c < |v| && v[c] == ')' && (forall k :: n < k < c ==> v[k] != ')') && Spaces(cs, v, c + 1, |v|);
    FirstParen(v, head, n, c);
  }

  lemma Restrict(cs: Chars, head: string, v: string, n: nat)
    requires !cs.space('(') && v <= head && "pub" <= head && 3 <= n < |v| && Spaces(cs, v, 3, n) && Restricted(cs, v, n)
    requires |v| < |head| && !cs.space(head[|v|])
    ensures SkipVisibility(cs, head) == head[|v|..]
  {
    hide *;
    UnfoldVisibility(cs, head);
    var c := ParenOf(cs, v, head, n);
    SkipTo(cs, v, head, 3, n);
    SkipTo(cs, v, head, c + 1, |v|);
  }

  lemma Unrestricted(cs: Chars, head: string, v: string)
    requires v <= head && "pub" <= head && Spaces(cs, v, 3, |v|)
    requires |v| < |head| && !cs.space(head[|v|]) && head[|v|] != '('
    ensures SkipVisibility(cs, head) == head[|v|..]
  {
    hide SkipSpace, SkipVisibility, Find;
    UnfoldVisibility(cs, head);
    SkipTo(cs, v, head, 3, |v|);
  }

  /** What stands in front of the word is passed over. */
  lemma VisibilityIs(cs: Chars, head: string, v: string, w: string)
    requires Lettered(cs) && Reads(cs, head, v, w)
    ensures SkipVisibility(cs, head) == head[|v|..]
  {
    hide SkipVisibility, Restricted;
    assert v <= v + w && head[|v|] == w[0];
    if v == "" {
      NoPub(cs, head);
    } else {
      var n: nat :| 3 <= n <= |v| && Spaces(cs, v, 3, n) && (n == |v| || Restricted(cs, v, n));
      if n == |v| { Unrestricted(cs, head, v); } else { Inner(cs, v, n); Restrict(cs, head, v, n); }
    }
  }

  lemma Inner(cs: Chars, v: string, n: nat)
    ensures Restricted(cs, v, n) ==> n < |v|
  {
  }

  lemma NoPub(cs: Chars, head: string)
    ensures Has(head, 0, "pub") <==> "pub" <= head
    ensures !("pub" <= head) ==> SkipVisibility(cs, head) == head
  {
    hide SkipSpace, Find;
  }

  lemma PubPlain(cs: Chars, head: string, k: nat)
    requires "pub" <= head && Spaces(cs, head, 3, k)
    ensures Pub(cs, head[..k])
  {
    assert Spaces(cs, head[..k], 3, k);
  }

  lemma Shorter(cs: Chars, head: string, p: nat, i: nat, j: nat)
    requires p <= |head| && j <= p && Spaces(cs, head, i, j)
    ensures Spaces(cs, head[..p], i, j)
  {
  }

  lemma PubRestricted(cs: Chars, head: string, k: nat, c: nat, p: nat)
    requires "pub" <= head && Spaces(cs, head, 3, k) && At(head, k) == Some('(')
    requires k < c < |head| && head[c] == ')' && (forall j :: k < j < c ==> head[j] != ')') && Spaces(cs, head, c + 1, p)
    ensures Pub(cs, head[..p])
  {
    Shorter(cs, head, p, 3, k);
    Shorter(cs, head, p, c + 1, p);
    assert Restricted(cs, head[..p], k) by { hide Spaces; }
    hide Spaces, Restricted;
  }

  /** Whatever a text begins with, what is passed over is a visibility or nothing. */
  lemma VisibilityFound(cs: Chars, head: string) returns (p: nat)
    ensures p <= |head| && SkipVisibility(cs, head) == head[p..]
    ensures if p == 0 then !("pub" <= head) else Pub(cs, head[..p])
  {
    hide SkipVisibility, SkipSpace, Find, Pub;
    NoPub(cs, head);
    if !("pub" <= head) { return 0; }
    var k := SkipSpace(cs, head, 3);
    UnfoldVisibility(cs, head);
    SkipEnds(cs, head, 3);
    if At(head, k) == Some('(') && Find(head, ")", k).Some? {
      var c := Find(head, ")", k).value;
      FindsFirst(head, ')', k);
      SkipEnds(cs, head, c + 1);
      p := SkipSpace(cs, head, c + 1);
      PubRestricted(cs, head, k, c, p);
    } else {
      p := k;
      PubPlain(cs, head, k);
    }
  }

  /** The word an item begins with, behind its visibility, is the one the text reads. */
  lemma WordRead(cs: Chars, head: string, v: string, w: string)
    requires Lettered(cs)
    ensures Reads(cs, head, v, w) ==> |v| <= |head| && FirstWord(cs, SkipVisibility(cs, head)) == w && SkipVisibility(cs, head) == head[|v|..]
  {
    if Reads(cs, head, v, w) {
      VisibilityIs(cs, head, v, w);
      var t := head[|v|..];
      assert (v + w)[|v|..] == w && w <= t && forall k :: 0 <= k < |t| ==> t[k] == head[|v| + k];
      hide SkipVisibility;
      FirstWordIs(cs, t, w);
    }
  }

  lemma ReadsSome(cs: Chars, head: string) returns (v: string)
    ensures var w := FirstWord(cs, SkipVisibility(cs, head)); w != "" ==> Reads(cs, head, v, w)
  {
    var p := VisibilityFound(cs, head);
    v := head[..p];
    var t, w := head[p..], FirstWord(cs, head[p..]);
    hide SkipVisibility, FirstWord;
    FirstWordIs(cs, t, w);
    if w != "" {
      Behind(head, p, w);
    }
  }

  lemma Behind(head: string, p: nat, w: string)
    requires p <= |head| && w <= head[p..]
    ensures head[..p] + w <= head && (|head[..p] + w| < |head| ==> head[|head[..p] + w|] == head[p..][|w|])
  {
    assert head == head[..p] + head[p..];
  }

  // ------------------------------------------------------------------ what kind of item it is

  /** One of the characters that end the first line of a `const`. */
  predicate EndsHead(c: char) { c == '=' || c == ';' || c == '{' || c == '(' }

  /** The word `fn` stands at `k`, before any of them. */
  ghost predicate FnBefore(cs: Chars, rest: string, k: nat) {
    && k + 2 <= |rest| && rest[k..k + 2] == "fn" && (k > 0 ==> !cs.word(rest[k - 1]))
    && (k + 2 < |rest| ==> EndsHead(rest[k + 2]) || !cs.word(rest[k + 2])) && forall j :: 0 <= j < k + 2 ==> !EndsHead(rest[j])
  }

  ghost predicate FnAhead(cs: Chars, rest: string) {
    exists k: nat :: FnBefore(cs, rest, k)
  }

  ghost predicate BlockWord(w: string) {
    w in {"mod", "fn", "impl", "trait", "struct", "enum", "union", "macro_rules", "extern", "unsafe", "async"}
  }

  ghost predicate SemiWord(w: string) {
    w in {"use", "static", "type", "let"}
  }

  /** The text begins an item with a body: one of those words, or a `const fn`. */
  ghost predicate BlockItem(cs: Chars, head: string) {
    exists v, w :: Reads(cs, head, v, w) && (BlockWord(w) || (w == "const" && FnAhead(cs, head[|v|..])))
  }

  /** Or an item that ends in a semicolon. */
  ghost predicate SemiItem(cs: Chars, head: string) {
    exists v, w :: Reads(cs, head, v, w) && (SemiWord(w) || (w == "const" && !FnAhead(cs, head[|v|..])))
  }

  lemma {:induction false} HeadLineIs(h: string)
    ensures HeadLine(h) <= h && (forall k :: 0 <= k < |HeadLine(h)| ==> !EndsHead(h[k]))
    ensures |HeadLine(h)| < |h| ==> EndsHead(h[|HeadLine(h)|])
  {
    if h != "" { HeadLineIs(h[1..]); }
  }

  /** The word `fn` at `k`. */
  ghost predicate FnAt(cs: Chars, s: string, k: nat) {
    Has(s, k, "fn") && (k > 0 ==> !cs.word(s[k - 1])) && (k + 2 < |s| ==> !cs.word(s[k + 2]))
  }

  lemma {:induction false} SaysFnIs(cs: Chars, s: string, i: nat)
    ensures SaysFn(cs, s, i) <==> exists k: nat :: i <= k && FnAt(cs, s, k)
    decreases |s| - i
  {
    assert FnAt(cs, s, i) <==>
      Has(s, i, "fn") && (i == 0 || !cs.word(s[i - 1])) && (i + 2 >= |s| || !cs.word(s[i + 2]));
    if i < |s| {
      SaysFnIs(cs, s, i + 1);
      if k: nat :| i <= k && FnAt(cs, s, k) { assert k == i || i + 1 <= k; }
    }
  }

  lemma FnLine(cs: Chars, h: string, k: nat)
    ensures FnAt(cs, HeadLine(h), k) <==> FnBefore(cs, h, k)
  {
    HeadLineIs(h);
    hide HeadLine;
    var l := HeadLine(h);
    if k + 2 <= |l| { assert l[k..k + 2] == h[k..k + 2]; }
    if k + 2 <= |h| && forall j :: 0 <= j < k + 2 ==> !EndsHead(h[j]) { assert k + 2 <= |l|; }
  }

  lemma FnAheadIs(cs: Chars, h: string)
    ensures SaysFn(cs, HeadLine(h), 0) <==> FnAhead(cs, h)
  {
    SaysFnIs(cs, HeadLine(h), 0);
    hide HeadLine, SaysFn, FnAt, FnBefore;
    forall k: nat ensures FnAt(cs, HeadLine(h), k) <==> FnBefore(cs, h, k) { FnLine(cs, h, k); }
  }

  lemma ModeOfWord(cs: Chars, s: string, i: nat)
    ensures var head := SkipVisibility(cs, Slice(s, i, i + 200));
      var w := FirstWord(cs, head);
      && (ModeOf(cs, s, i) == Block <==> BlockWord(w) || (w == "const" && FnAhead(cs, head)))
      && (ModeOf(cs, s, i) == Semi <==> SemiWord(w) || (w == "const" && !FnAhead(cs, head)))
  {
    FnAheadIs(cs, SkipVisibility(cs, Slice(s, i, i + 200)));
    hide SkipVisibility, FirstWord, HeadLine, SaysFn, FnAhead, Slice;
  }

  lemma KindRead(cs: Chars, head: string)
    requires Lettered(cs)
    ensures var h := SkipVisibility(cs, head);
      var w := FirstWord(cs, h);
      && (BlockItem(cs, head) <==> BlockWord(w) || (w == "const" && FnAhead(cs, h)))
      && (SemiItem(cs, head) <==> SemiWord(w) || (w == "const" && !FnAhead(cs, h)))
  {
    NoWord();
    hide SkipVisibility, FirstWord, FnAhead, Reads, BlockWord, SemiWord;
    var v0 := ReadsSome(cs, head);
    forall v, w
      ensures Reads(cs, head, v, w) ==> |v| <= |head| && FirstWord(cs, SkipVisibility(cs, head)) == w && SkipVisibility(cs, head) == head[|v|..]
    {
      WordRead(cs, head, v, w);
    }
    var w := FirstWord(cs, SkipVisibility(cs, head));
    if w != "" { assert Reads(cs, head, v0, w); }
  }

  lemma NoWord()
    ensures !BlockWord("") && !SemiWord("")
  {
  }

  /** The words settle how an item ends. */
  lemma ModeRead(cs: Chars, s: string, i: nat)
    requires Lettered(cs)
    ensures ModeOf(cs, s, i) == Block <==> BlockItem(cs, Slice(s, i, i + 200))
    ensures ModeOf(cs, s, i) == Semi <==> SemiItem(cs, Slice(s, i, i + 200))
  {
    hide *;
    ModeOfWord(cs, s, i);
    KindRead(cs, Slice(s, i, i + 200));
  }

  // ------------------------------------------------------------------ where an item ends

  /** The bracket that closes what the item is in. */
  ghost predicate ClosesAround(s: string, a: nat, k: nat)
    requires k < |s|
  {
    Closer(s[k]) && Depth(s, a, k) == 0
  }

  /** What ends an item that begins at `a`: that bracket, a semicolon, its own last brace, a comma. */
  ghost predicate EndsHere(s: string, a: nat, k: nat, braces: bool, commas: bool)
    requires k < |s|
  {
    || ClosesAround(s, a, k)
    || (s[k] == ';' && Depth(s, a, k) == 0)
    || (braces && s[k] == '}' && Depth(s, a, k) == 1)
    || (commas && s[k] == ',' && Depth(s, a, k) == 0)
  }

  ghost predicate FirstEnd(s: string, a: nat, k: nat, braces: bool, commas: bool) {
    a <= k < |s| && EndsHere(s, a, k, braces, commas) && forall j :: a <= j < k ==> !EndsHere(s, a, j, braces, commas)
  }

  /** Before the bracket of its surroundings, else behind what ends it, and behind a comma that follows a brace. */
  ghost predicate EndBehind(cs: Chars, s: string, a: nat, k: nat, commas: bool, e: nat)
    requires k < |s|
  {
    if ClosesAround(s, a, k) then e == k
    else if commas && s[k] == '}' then
      exists n: nat :: SpaceEnds(cs, s, k + 1, n) && e == if n < |s| && s[n] == ',' then n + 1 else k + 1
    else e == k + 1
  }

  ghost predicate EndsAt(cs: Chars, s: string, a: nat, e: nat, braces: bool, commas: bool) {
    || (exists k: nat :: FirstEnd(s, a, k, braces, commas) && EndBehind(cs, s, a, k, commas, e))
    || ((forall k: nat :: !FirstEnd(s, a, k, braces, commas)) && e == |s|)
  }

  /** Behind its attributes an item ends at its first semicolon, at its last brace unless its word asks for the semicolon,
      and at a comma when it begins with none of the words. */
  ghost predicate Item(cs: Chars, s: string, i: nat, e: nat) {
    exists a: nat :: Attributes(cs, s, i, a) &&
      var head := Slice(s, a, a + 200);
      EndsAt(cs, s, a, e, !SemiItem(cs, head), !SemiItem(cs, head) && !BlockItem(cs, head))
  }

  predicate Braces(mode: Mode) { mode != Semi }
  predicate Commas(mode: Mode) { mode == Expr }

  lemma StopsAre(s: string, a: nat, k: nat, mode: Mode)
    requires k < |s|
    ensures Stops(s, a, k, mode) <==> EndsHere(s, a, k, Braces(mode), Commas(mode))
  {
    hide Depth;
  }

  lemma FirstStopIs(s: string, a: nat, k: nat, mode: Mode)
    ensures FirstStop(s, a, k, mode) <==> FirstEnd(s, a, k, Braces(mode), Commas(mode))
  {
    hide Stops, EndsHere;
    forall j: nat | j < |s| ensures Stops(s, a, j, mode) <==> EndsHere(s, a, j, Braces(mode), Commas(mode)) { StopsAre(s, a, j, mode); }
  }

  lemma StopEndIs(cs: Chars, s: string, a: nat, k: nat, mode: Mode, e: nat)
    requires FirstStop(s, a, k, mode)
    ensures EndBehind(cs, s, a, k, Commas(mode), e) <==> e == StopEnd(cs, s, a, k, mode)
  {
    SkipEnds(cs, s, k + 1);
    hide SkipSpace, Depth;
    var i, end := k + 1, SkipSpace(cs, s, k + 1);
    forall n: nat ensures SpaceEnds(cs, s, i, n) <==> n == end {
      if SpaceEnds(cs, s, i, n) { SkipIs(cs, s, i, n); }
    }
    hide SpaceEnds;
  }

  lemma EndFromIs(cs: Chars, s: string, a: nat, mode: Mode, e: nat)
    requires a <= |s|
    ensures EndsAt(cs, s, a, e, Braces(mode), Commas(mode)) <==> e == EndFrom(cs, s, a, 0, mode)
  {
    EndIsFirstStop(cs, s, a, a, 0, mode);
    hide FirstStop, FirstEnd, EndBehind, StopEnd, EndFrom, Braces, Commas;
    forall k: nat ensures FirstStop(s, a, k, mode) <==> FirstEnd(s, a, k, Braces(mode), Commas(mode)) { FirstStopIs(s, a, k, mode); }
    forall k: nat | FirstStop(s, a, k, mode)
      ensures k < |s| && (EndBehind(cs, s, a, k, Commas(mode), e) <==> e == StopEnd(cs, s, a, k, mode))
    {
      FirstInside(s, a, k, mode);
      StopEndIs(cs, s, a, k, mode, e);
    }
  }

  lemma FirstInside(s: string, a: nat, k: nat, mode: Mode)
    ensures FirstStop(s, a, k, mode) ==> k < |s|
  {
  }

  /** The end that is computed is the end the text has. */
  lemma ItemIs(cs: Chars, s: string, i: nat, e: nat)
    requires Lettered(cs) && i <= |s|
    ensures Item(cs, s, i, e) <==> e == ItemEnd(cs, s, i)
  {
    hide Attributes, SkipAttributes, ItemEnd, EndsAt, EndFrom, ModeOf, SemiItem, BlockItem, Slice;
    var a := SkipAttributes(cs, s, i);
    var mode, head := ModeOf(cs, s, a), Slice(s, a, a + 200);
    forall b: nat ensures Attributes(cs, s, i, b) <==> b == a { AttributesEnd(cs, s, i, b); }
    ItemEndIs(cs, s, i);
    ModeRead(cs, s, a);
    EndFromIs(cs, s, a, mode, e);
    assert Braces(mode) == !SemiItem(cs, head) && Commas(mode) == (!SemiItem(cs, head) && !BlockItem(cs, head));
    assert Attributes(cs, s, i, a);
    assert Item(cs, s, i, e) <==> EndsAt(cs, s, a, e, Braces(mode), Commas(mode));
  }

  lemma BodyFirstEnd(s: string, a: nat, o: nat, k: nat)
    requires a <= o < k < |s| && s[o] == '{' && s[k] == '}' && Depth(s, a, o) == 0 && Depth(s, a, k) == 1
    requires forall j :: o < j < k ==> Depth(s, a, j) >= 1 && (s[j] == '}' ==> Depth(s, a, j) > 1)
    requires forall j :: a <= j < o ==> !EndsHere(s, a, j, true, false)
    ensures FirstEnd(s, a, k, true, false) && !ClosesAround(s, a, k)
  {
    hide Depth;
    forall j | a <= j < k ensures !EndsHere(s, a, j, true, false) {
    }
  }

  /** An item with a body ends behind the brace that closes the first one it opens, unless something ends it before. */
  lemma BodyEndsItem(cs: Chars, s: string, i: nat, a: nat, o: nat, k: nat)
    requires Lettered(cs) && i <= |s| && Attributes(cs, s, i, a) && BlockItem(cs, Slice(s, a, a + 200))
    requires a <= o < k < |s| && s[o] == '{' && s[k] == '}' && Depth(s, a, o) == 0 && Depth(s, a, k) == 1
    requires forall j :: o < j < k ==> Depth(s, a, j) >= 1 && (s[j] == '}' ==> Depth(s, a, j) > 1)
    requires forall j :: a <= j < o ==> !EndsHere(s, a, j, true, false)
    ensures ItemEnd(cs, s, i) == k + 1
  {
    BodyFirstEnd(s, a, o, k);
    BehindBrace(cs, s, a, k);
    hide *;
    ModeRead(cs, s, a);
    AttributesEnd(cs, s, i, a);
    ItemEndIs(cs, s, i);
    EndFromIs(cs, s, a, Block, k + 1);
    OfBlock();
  }

  lemma OfBlock()
    ensures Braces(Block) && !Commas(Block)
  {
  }

  lemma BehindBrace(cs: Chars, s: string, a: nat, k: nat)
    requires FirstEnd(s, a, k, true, false) && !ClosesAround(s, a, k)
    ensures EndsAt(cs, s, a, k + 1, true, false)
  {
    hide ClosesAround, EndsHere;
    assert EndBehind(cs, s, a, k, false, k + 1);
  }

  // ------------------------------------------------------------------ which items are blanked

  /** `#[` or, with `bang`, `#![` from `i` to the bracket at `k`, with space between. */
  ghost predicate Hash(cs: Chars, b: string, i: nat, bang: bool, k: nat) {
    && i < k < |b| && b[i] == '#' && b[k] == '['
    && if bang then exists m :: i < m < k && b[m] == '!' && Spaces(cs, b, i + 1, m) && Spaces(cs, b, m + 1, k)
       else Spaces(cs, b, i + 1, k)
  }

  /** `cfg(` from `k` on, with space around; `e` is behind the parenthesis. */
  ghost predicate CfgParen(cs: Chars, b: string, k: nat, e: nat) {
    && 0 < e <= |b| && b[e - 1] == '('
    && exists l: nat :: Spaces(cs, b, k, l) && Has(b, l, "cfg") && Spaces(cs, b, l + 3, e - 1)
  }

  ghost predicate CfgOpens(cs: Chars, b: string, i: nat, bang: bool, e: nat) {
    exists k: nat :: Hash(cs, b, i, bang, k) && CfgParen(cs, b, k + 1, e)
  }

  /** The parenthesis in front of `e` closes at `c`, around a predicate that is accepted as test-only. */
  ghost predicate TestParen(cs: Chars, b: string, e: nat, c: nat) {
    e > 0 && Encloses(b, e - 1, c, '(', ')') && CfgTest.IsTestPredicate(cs.space, Slice(b, e, c - 1))
  }

  ghost predicate TestBracket(cs: Chars, b: string, e: nat, k: nat) {
    k < |b| && b[k] == ']' && exists c: nat :: TestParen(cs, b, e, c) && SpaceEnds(cs, b, c, k)
  }

  /** At `p` stands a `cfg` attribute with such a predicate; `k` is its closing bracket. */
  ghost predicate TestCfg(cs: Chars, b: string, p: nat, bang: bool, k: nat) {
    exists e: nat :: CfgOpens(cs, b, p, bang, e) && TestBracket(cs, b, e, k)
  }

  lemma HasAt(b: string, l: nat, pat: string)
    requires Has(b, l, pat) && pat != ""
    ensures l < |b| && b[l] == pat[0]
  {
    assert b[l] == b[l..l + |pat|][0];
  }

  function HashAt(cs: Chars, b: string, i: nat): (bool, nat)
  {
    var j := SkipSpace(cs, b, i + 1);
    var bang := At(b, j) == Some('!');
    (bang, SkipSpace(cs, b, if bang then j + 1 else j))
  }

  lemma HashIs(cs: Chars, b: string, i: nat, bang: bool, k: nat)
    requires Plain(cs) && Hash(cs, b, i, bang, k)
    ensures HashAt(cs, b, i) == (bang, k)
  {
    assert !cs.space('[') && !cs.space('!');
    hide SkipSpace;
    if bang {
      var m :| i < m < k && b[m] == '!' && Spaces(cs, b, i + 1, m) && Spaces(cs, b, m + 1, k);
      SkipIs(cs, b, i + 1, m);
      SkipIs(cs, b, m + 1, k);
    } else {
      SkipIs(cs, b, i + 1, k);
      SkipIs(cs, b, k, k);
    }
  }

  lemma HashFound(cs: Chars, b: string, i: nat)
    requires Plain(cs) && i < |b| && b[i] == '#' && At(b, HashAt(cs, b, i).1) == Some('[')
    ensures Hash(cs, b, i, HashAt(cs, b, i).0, HashAt(cs, b, i).1)
  {
    hide SkipSpace;
    var j := SkipSpace(cs, b, i + 1);
    SkipEnds(cs, b, i + 1);
    if At(b, j) == Some('!') {
      SkipEnds(cs, b, j + 1);
    } else {
      SkipEnds(cs, b, j);
      if j < |b| { SkipIs(cs, b, j, j); }
    }
  }

  lemma CfgParenIs(cs: Chars, b: string, k: nat, e: nat)
    requires Plain(cs) && k <= |b|
    ensures var l := SkipSpace(cs, b, k);
      var m := SkipSpace(cs, b, l + 3);
      CfgParen(cs, b, k, e) <==> Has(b, l, "cfg") && At(b, m) == Some('(') && e == m + 1
  {
    assert !cs.space('(') && !cs.space('c');
    hide SkipSpace;
    var l := SkipSpace(cs, b, k);
    var m := SkipSpace(cs, b, l + 3);
    SkipEnds(cs, b, k);
    if l + 3 <= |b| { SkipEnds(cs, b, l + 3); }
    if CfgParen(cs, b, k, e) {
      var n: nat :| Spaces(cs, b, k, n) && Has(b, n, "cfg") && Spaces(cs, b, n + 3, e - 1);
      HasAt(b, n, "cfg");
      SkipIs(cs, b, k, n);
      SkipIs(cs, b, l + 3, e - 1);
    }
  }

  lemma UnfoldCfgAt(cs: Chars, b: string, i: nat)
    requires i < |b|
    ensures var (bang, k) := HashAt(cs, b, i);
      var l := SkipSpace(cs, b, k + 1);
      var m := SkipSpace(cs, b, l + 3);
      CfgAt(cs, b, i) ==
        if b[i] == '#' && At(b, k) == Some('[') && Has(b, l, "cfg") && At(b, m) == Some('(') then Some(CfgMatch(i, bang, m + 1)) else None
  {
    hide SkipSpace, Has;
  }

  /** The search finds an attribute at `i` when the text has one there. */
  lemma CfgAtIs(cs: Chars, b: string, i: nat, bang: bool, e: nat)
    requires Plain(cs) && i < |b|
    ensures CfgAt(cs, b, i) == Some(CfgMatch(i, bang, e)) <==> CfgOpens(cs, b, i, bang, e)
  {
    hide HashAt, SkipSpace, Has, CfgAt, Hash, CfgParen;
    UnfoldCfgAt(cs, b, i);
    var (bang', k) := HashAt(cs, b, i);
    forall x: bool, n: nat ensures Hash(cs, b, i, x, n) ==> (x, n) == (bang', k) && b[i] == '#' && At(b, n) == Some('[') {
      if Hash(cs, b, i, x, n) {
        HashIs(cs, b, i, x, n);
        HashEnds(cs, b, i, x, n);
      }
    }
    if b[i] == '#' && At(b, k) == Some('[') {
      HashFound(cs, b, i);
      CfgParenIs(cs, b, k + 1, e);
    }
  }

  lemma HashEnds(cs: Chars, b: string, i: nat, bang: bool, k: nat)
    requires Hash(cs, b, i, bang, k)
    ensures i < |b| && b[i] == '#' && At(b, k) == Some('[')
  {
  }

  /** Where the bracket behind a `cfg` has to be. */
  function BracketOf(cs: Chars, b: string, m: CfgMatch): nat
    requires m.from < m.end <= |b|
  {
    SkipSpace(cs, b, BalancedFrom(b, m.end - 1, 0, '(', ')'))
  }

  predicate Accepted(cs: Chars, b: string, m: CfgMatch)
    requires m.from < m.end <= |b|
  {
    CfgTest.IsTestPredicate(cs.space, Predicate(b, m)) && At(b, BracketOf(cs, b, m)) == Some(']')
  }

  lemma TestParenIs(cs: Chars, b: string, m: CfgMatch, c: nat)
    requires m.from < m.end <= |b|
    ensures TestParen(cs, b, m.end, c) <==>
      c == BalancedFrom(b, m.end - 1, 0, '(', ')') && CfgTest.IsTestPredicate(cs.space, Predicate(b, m))
  {
    hide Encloses, BalancedFrom, Slice, CfgTest.IsTestPredicate;
    BalancedEncloses(b, m.end - 1, c, '(', ')');
    PredicateIs(b, m);
  }

  lemma AcceptedMeans(cs: Chars, b: string, m: CfgMatch, k: nat)
    requires m.from < m.end <= |b|
    ensures TestBracket(cs, b, m.end, k) <==> Accepted(cs, b, m) && k == BracketOf(cs, b, m)
  {
    hide TestParen, BalancedFrom, SkipSpace, Predicate, SpaceEnds, CfgTest.IsTestPredicate;
    var close := BalancedFrom(b, m.end - 1, 0, '(', ')');
    forall c: nat ensures TestParen(cs, b, m.end, c) <==> c == close && CfgTest.IsTestPredicate(cs.space, Predicate(b, m)) {
      TestParenIs(cs, b, m, c);
    }
    SkipEnds(cs, b, close);
    if SpaceEnds(cs, b, close, k) { SkipIs(cs, b, close, k); }
  }

  lemma TestCfgIs(cs: Chars, b: string, p: nat, bang: bool, k: nat)
    requires Plain(cs) && p < |b|
    ensures TestCfg(cs, b, p, bang, k) <==>
      var m := CfgAt(cs, b, p); m.Some? && m.value.bang == bang && Accepted(cs, b, m.value) && k == BracketOf(cs, b, m.value)
  {
    hide CfgAt, CfgOpens, Accepted, BracketOf, TestBracket;
    var m := CfgAt(cs, b, p);
    forall e: nat ensures m == Some(CfgMatch(p, bang, e)) <==> CfgOpens(cs, b, p, bang, e) { CfgAtIs(cs, b, p, bang, e); }
    if m.Some? {
      AcceptedMeans(cs, b, m.value, k);
      assert m.value.bang == bang ==> CfgOpens(cs, b, p, bang, m.value.end);
    }
  }

  lemma JudgeIs(cs: Chars, b: string, m: CfgMatch, upto: nat)
    requires m.from < m.end <= |b|
    ensures Judge(cs, b, m, upto) ==
      if m.from < upto || !Accepted(cs, b, m) then Skip
      else if m.bang then WholeFile else Cut(m.from, ItemEnd(cs, b, BracketOf(cs, b, m) + 1))
  {
    hide BalancedFrom, SkipSpace, ItemEnd, Predicate, CfgTest.IsTestPredicate;
    PredicateIs(b, m);
    hide Slice;
  }

  lemma HashOnce(cs: Chars, b: string, i: nat, bang: bool, k: nat)
    requires Plain(cs) && Hash(cs, b, i, bang, k)
    ensures forall p :: i < p <= k ==> b[p] != '#'
  {
    assert !cs.space('#');
  }

  lemma ParenNoHash(cs: Chars, b: string, k: nat, e: nat)
    requires Plain(cs) && CfgParen(cs, b, k, e)
    ensures forall p :: k <= p < e ==> b[p] != '#'
  {
    assert !cs.space('#');
    var l: nat :| Spaces(cs, b, k, l) && Has(b, l, "cfg") && Spaces(cs, b, l + 3, e - 1);
    var w := b[l..l + 3];
    assert w == "cfg" && b[l] == w[0] && b[l + 1] == w[1] && b[l + 2] == w[2];
  }

  /** The text of one attribute, up to its parenthesis, holds no second. */
  lemma NoSecond(cs: Chars, b: string, i: nat, p: nat)
    requires Plain(cs) && i < p < |b| && CfgAt(cs, b, i).Some? && p < CfgAt(cs, b, i).value.end
    ensures b[p] != '#'
  {
    hide CfgAt, Hash, CfgParen, Plain;
    var m := CfgAt(cs, b, i).value;
    CfgAtIs(cs, b, i, m.bang, m.end);
    var k: nat :| Hash(cs, b, i, m.bang, k) && CfgParen(cs, b, k + 1, m.end);
    HashOnce(cs, b, i, m.bang, k);
    ParenNoHash(cs, b, k + 1, m.end);
  }

  lemma {:induction false} NextIsFirst(cs: Chars, b: string, pos: nat, p: nat)
    requires pos <= p < |b| && CfgAt(cs, b, p).Some?
    ensures NextCfg(cs, b, pos).Some? && NextCfg(cs, b, pos).value.from <= p
    decreases p - pos
  {
    hide CfgAt;
    if pos < p && CfgAt(cs, b, pos).None? { NextIsFirst(cs, b, pos + 1, p); }
  }

  /** No accepted attribute is passed over: each one lies in a blanked item or before `upto`. */
  lemma {:induction false} NoneMissed(cs: Chars, b: string, pos: nat, upto: nat, p: nat)
    requires Plain(cs) && pos <= p < |b| && CfgAt(cs, b, p).Some? && Accepted(cs, b, CfgAt(cs, b, p).value)
    requires Spans(cs, b, pos, upto).Some?
    ensures p < upto || InSpan(Spans(cs, b, pos, upto).value, p)
    decreases |b| - pos
  {
    hide CfgAt, Accepted, Judge, NextCfg, ItemEnd, BracketOf;
    NextIsFirst(cs, b, pos, p);
    NextIsCfg(cs, b, pos);
    var m := NextCfg(cs, b, pos).value;
    JudgeIs(cs, b, m, upto);
    var v := Judge(cs, b, m, upto);
    var upto' := if v.Cut? then v.to else upto;
    if m.from < p {
      if p < m.end { NoSecond(cs, b, m.from, p); CfgHash(cs, b, p); }
      NoneMissed(cs, b, m.end, upto', p);
    }
    if v.Cut? { Shifted((v.from, v.to), Spans(cs, b, m.end, v.to).value, p); }
  }

  lemma CfgHash(cs: Chars, b: string, p: nat)
    requires p < |b| && CfgAt(cs, b, p).Some?
    ensures b[p] == '#'
  {
  }

  lemma Shifted(first: Span, rest: seq<Span>, p: nat)
    ensures InSpan([first] + rest, p) <==> first.0 <= p < first.1 || InSpan(rest, p)
  {
    var all := [first] + rest;
    if k :| 0 <= k < |rest| && rest[k].0 <= p < rest[k].1 { assert all[k + 1] == rest[k]; }
    if k :| 0 <= k < |all| && all[k].0 <= p < all[k].1 { assert k > 0 ==> all[k] == rest[k - 1]; }
    if first.0 <= p < first.1 { assert all[0] == first; }
  }

  lemma {:induction false} WholeBecause(cs: Chars, b: string, pos: nat, upto: nat) returns (p: nat)
    requires pos <= |b| && Spans(cs, b, pos, upto).None?
    ensures p < |b| && CfgAt(cs, b, p).Some? && CfgAt(cs, b, p).value.bang && Accepted(cs, b, CfgAt(cs, b, p).value)
    decreases |b| - pos
  {
    hide CfgAt, Accepted, Judge, NextCfg, ItemEnd, BracketOf;
    NextIsCfg(cs, b, pos);
    var m := NextCfg(cs, b, pos).value;
    JudgeIs(cs, b, m, upto);
    var v := Judge(cs, b, m, upto);
    match v
    case WholeFile => p := m.from;
    case Skip => p := WholeBecause(cs, b, m.end, upto);
    case Cut(_, to) => p := WholeBecause(cs, b, m.end, to);
  }

  /** An item from its accepted outer `cfg` to its end. */
  ghost predicate BlankedItem(cs: Chars, b: string, s: Span) {
    exists k: nat :: TestCfg(cs, b, s.0, false, k) && Item(cs, b, k + 1, s.1)
  }

  lemma SpanIsItem(cs: Chars, b: string, i: nat)
    requires Lettered(cs) && Spans(cs, b, 0, 0).Some? && i < |Spans(cs, b, 0, 0).value|
    ensures BlankedItem(cs, b, Spans(cs, b, 0, 0).value[i])
  {
    hide Spans, TestCfg, Item, TestItem;
    SpansAreTestItems(cs, b, 0, 0, i);
    var k := TestItemRead(cs, b, Spans(cs, b, 0, 0).value[i]);
  }

  lemma CfgInSpan(cs: Chars, b: string, p: nat, bang: bool, k: nat)
    requires Plain(cs) && Spans(cs, b, 0, 0).Some? && TestCfg(cs, b, p, bang, k)
    ensures InSpan(Spans(cs, b, 0, 0).value, p)
  {
    hide Spans, TestCfg, InSpan, CfgAt, Accepted, BracketOf;
    TestCfgInside(cs, b, p, bang, k);
    TestCfgIs(cs, b, p, bang, k);
    NoneMissed(cs, b, 0, 0, p);
  }

  /** What is blanked, read off the text. Each blanked item begins with an accepted outer `cfg` and ends where the text
      has it end; every accepted `cfg`, inner or outer, lies in one; and a file is all test code only by an inner one. */
  lemma SpansRead(cs: Chars, b: string)
    requires Lettered(cs)
    ensures match Spans(cs, b, 0, 0)
      case Some(spans) =>
        && (forall i: nat :: i < |spans| ==> BlankedItem(cs, b, spans[i]))
        && (forall p: nat, bang: bool, k: nat :: TestCfg(cs, b, p, bang, k) ==> InSpan(spans, p))
      case None => exists p: nat, k: nat :: TestCfg(cs, b, p, true, k)
  {
    hide Spans, TestCfg, BlankedItem, InSpan, CfgAt, Accepted, BracketOf;
    match Spans(cs, b, 0, 0)
    case Some(spans) =>
      forall i: nat | i < |spans| ensures BlankedItem(cs, b, spans[i]) { SpanIsItem(cs, b, i); }
      forall p: nat, bang: bool, k: nat | TestCfg(cs, b, p, bang, k) ensures InSpan(spans, p) { CfgInSpan(cs, b, p, bang, k); }
    case None =>
      var p := WholeBecause(cs, b, 0, 0);
      TestCfgIs(cs, b, p, true, BracketOf(cs, b, CfgAt(cs, b, p).value));
  }

  lemma TestCfgInside(cs: Chars, b: string, p: nat, bang: bool, k: nat)
    requires TestCfg(cs, b, p, bang, k)
    ensures p < |b|
  {
  }

  lemma TestItemRead(cs: Chars, b: string, s: Span) returns (k: nat)
    requires Lettered(cs) && TestItem(cs, b, s)
    ensures TestCfg(cs, b, s.0, false, k) && Item(cs, b, k + 1, s.1)
  {
    hide CfgAt, BalancedFrom, SkipSpace, ItemEnd, Predicate, CfgTest.IsTestPredicate, TestCfg, Item, Lettered, Plain;
    var m := CfgAt(cs, b, s.0).value;
    k := BracketOf(cs, b, m);
    assert Plain(cs) by { LetteredPlain(cs); }
    TestCfgIs(cs, b, s.0, false, k);
    ItemIs(cs, b, k + 1, s.1);
  }

  lemma LetteredPlain(cs: Chars)
    requires Lettered(cs)
    ensures Plain(cs)
  {
  }
}
