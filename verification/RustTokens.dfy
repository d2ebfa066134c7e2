/** What the lexer in `mask` of ci/check-module-cycle.py takes for comments and literals, read off the text. */
module RustTokens {
  import opened Options
  import opened Text
  import opened RustMask

  // ------------------------------------------------------------------ block comments

  /** An opener or a closer. */
  predicate Mark(t: string, j: nat) {
    Has(t, j, "/*") || Has(t, j, "*/")
  }

  /** Where the search for the next mark begins. */
  function Behind(i: nat, ms: seq<nat>): nat {
    if ms == [] then i else ms[|ms| - 1] + 2
  }

  /** The marks from `i` on, from left to right, none overlapping the one before and none left out. */
  ghost predicate Marks(t: string, i: nat, ms: seq<nat>)
    decreases |ms|
  {
    ms == [] ||
    (var last, rest := ms[|ms| - 1], ms[..|ms| - 1];
     Marks(t, i, rest) && Behind(i, rest) <= last && Mark(t, last) && forall p :: Behind(i, rest) <= p < last ==> !Mark(t, p))
  }

  /** Openers less closers. */
  ghost function Surplus(t: string, ms: seq<nat>): int
    decreases |ms|
  {
    if ms == [] then 0 else Surplus(t, ms[..|ms| - 1]) + (if Has(t, ms[|ms| - 1], "/*") then 1 else -1)
  }

  /** After `ms` openers and closers are equal for the first time; `e` is just past the last of them. */
  ghost predicate Closing(t: string, i: nat, ms: seq<nat>, e: nat) {
    && Marks(t, i, ms) && ms != [] && Surplus(t, ms) == 0 && e == Behind(i, ms)
    && forall n :: 0 < n < |ms| ==> Surplus(t, ms[..n]) != 0
  }

  ghost predicate Closes(t: string, i: nat, e: nat) {
    exists ms :: Closing(t, i, ms, e)
  }

  ghost predicate BlockComment(t: string, i: nat, e: nat) {
    Has(t, i, "/*") && (Closes(t, i, e) || (e == |t| && forall x: nat :: !Closes(t, i, x)))
  }

  /** The marks are one list: of two, one is the beginning of the other. */
  lemma {:induction false} MarksAgree(t: string, i: nat, a: seq<nat>, b: seq<nat>)
    requires Marks(t, i, a) && Marks(t, i, b) && |a| <= |b|
    ensures a == b[..|a|]
    decreases |b|
  {
    if |a| < |b| {
      var rest := b[..|b| - 1];
      MarksAgree(t, i, a, rest);
      assert rest[..|a|] == b[..|a|];
    } else if a != [] {
      var x, y := a[..|a| - 1], b[..|b| - 1];
      MarksAgree(t, i, x, y);
      assert x == y;
      assert a == x + [a[|a| - 1]] && b == y + [b[|b| - 1]];
    }
  }

  lemma {:induction false} MarksPrefix(t: string, i: nat, ms: seq<nat>, n: nat)
    requires Marks(t, i, ms) && n <= |ms|
    ensures Marks(t, i, ms[..n])
    decreases |ms|
  {
    if n < |ms| {
      MarksPrefix(t, i, ms[..|ms| - 1], n);
      assert ms[..|ms| - 1][..n] == ms[..n];
    } else {
      assert ms[..n] == ms;
    }
  }

  /** Two closings of one comment end at the same place. */
  lemma ClosingAgrees(t: string, i: nat, a: seq<nat>, x: nat, b: seq<nat>, y: nat)
    requires Closing(t, i, a, x) && Closing(t, i, b, y) && |a| <= |b|
    ensures x == y
  {
    MarksAgree(t, i, a, b);
    assert b[..|b|] == b;
  }

  lemma ClosesOnce(t: string, i: nat, x: nat, y: nat)
    requires Closes(t, i, x) && Closes(t, i, y)
    ensures x == y
  {
    var a :| Closing(t, i, a, x);
    var b :| Closing(t, i, b, y);
    if |a| <= |b| { ClosingAgrees(t, i, a, x, b, y); } else { ClosingAgrees(t, i, b, y, a, x); }
  }

  /** Open after every one of `ms`. */
  ghost predicate StillOpen(t: string, i: nat, ms: seq<nat>) {
    Marks(t, i, ms) && ms != [] && forall n :: 0 < n <= |ms| ==> Surplus(t, ms[..n]) > 0
  }

  /** With no closer behind `ms`, nothing closes the comment. */
  lemma {:induction false} NoCloserLeft(t: string, i: nat, ms: seq<nat>, more: seq<nat>)
    requires StillOpen(t, i, ms) && forall p :: Behind(i, ms) <= p ==> !Has(t, p, "*/")
    requires Marks(t, i, more) && |ms| <= |more|
    ensures Surplus(t, more) > 0 && Behind(i, ms) <= Behind(i, more)
    decreases |more|
  {
    if |ms| == |more| {
      MarksAgree(t, i, ms, more);
      assert more[..|ms|] == more && ms[..|ms|] == ms;
    } else {
      NoCloserLeft(t, i, ms, more[..|more| - 1]);
    }
  }

  lemma NeverCloses(t: string, i: nat, ms: seq<nat>, x: nat)
    requires StillOpen(t, i, ms) && forall p :: Behind(i, ms) <= p ==> !Has(t, p, "*/")
    ensures !Closes(t, i, x)
  {
    if more :| Closing(t, i, more, x) {
      if |ms| <= |more| {
        NoCloserLeft(t, i, ms, more);
      } else {
        MarksAgree(t, i, more, ms);
      }
    }
  }

  /** One more mark. */
  lemma MarkNext(t: string, i: nat, ms: seq<nat>, m: nat)
    requires StillOpen(t, i, ms) && Behind(i, ms) <= m && Mark(t, m) && forall p :: Behind(i, ms) <= p < m ==> !Mark(t, p)
    ensures Marks(t, i, ms + [m]) && Behind(i, ms + [m]) == m + 2
    ensures Surplus(t, ms + [m]) == Surplus(t, ms) + (if Has(t, m, "/*") then 1 else -1)
    ensures Surplus(t, ms + [m]) > 0 ==> StillOpen(t, i, ms + [m])
    ensures Surplus(t, ms + [m]) == 0 ==> Closing(t, i, ms + [m], m + 2)
  {
    var more := ms + [m];
    assert more[..|ms|] == ms;
    forall n | 0 < n < |more| ensures Surplus(t, more[..n]) > 0 { assert more[..n] == ms[..n]; }
    assert more[..|more|] == more;
  }

  lemma NoneBefore(t: string, pat: string, i: nat)
    requires pat != ""
    ensures match Find(t, pat, i)
      case None => forall p :: i <= p ==> !Has(t, p, pat)
      case Some(k) => i <= k && Has(t, k, pat) && forall p :: i <= p < k ==> !Has(t, p, pat)
  {
    match Find(t, pat, i)
    case None => forall p | i <= p ensures !Has(t, p, pat) { if Has(t, p, pat) { FirstOf(t, pat, i, p); } }
    case Some(k) => FindFirst(t, pat, i, k);
  }

  lemma {:induction false} FirstOf(t: string, pat: string, i: nat, p: nat)
    requires pat != "" && i <= p && Has(t, p, pat)
    ensures Find(t, pat, i).Some?
    decreases p - i
  {
    if i < p && !Has(t, i, pat) { FirstOf(t, pat, i + 1, p); }
  }

  lemma NotBoth(t: string, p: nat)
    ensures !(Has(t, p, "/*") && Has(t, p, "*/"))
  {
  }

  lemma UnfoldBlock(t: string, i: nat, depth: nat)
    requires i <= |t|
    ensures depth == 0 ==> BlockEnd(t, i, depth) == i
    ensures i == |t| ==> BlockEnd(t, i, depth) == |t|
    ensures depth > 0 && i < |t| ==>
      BlockEnd(t, i, depth) ==
      match Find(t, "*/", i)
      case None => |t|
      case Some(c) =>
        var o := Find(t, "/*", i);
        if o.Some? && o.value < c then BlockEnd(t, o.value + 2, depth + 1) else BlockEnd(t, c + 2, depth - 1)
  {
    hide Find;
  }

  /** The opener or closer the loop turns to next. */
  lemma NextMark(t: string, j: nat) returns (m: nat)
    requires Find(t, "*/", j).Some?
    ensures var o, c := Find(t, "/*", j), Find(t, "*/", j).value;
      (m == if o.Some? && o.value < c then o.value else c) && (Has(t, m, "/*") <==> o.Some? && o.value < c)
    ensures j <= m && m + 2 <= |t| && Mark(t, m) && forall p :: j <= p < m ==> !Mark(t, p)
  {
    NoneBefore(t, "/*", j);
    NoneBefore(t, "*/", j);
    var o, c := Find(t, "/*", j), Find(t, "*/", j).value;
    hide Find, Has;
    m := if o.Some? && o.value < c then o.value else c;
    NotBoth(t, m);
  }

  lemma NoCloser(t: string, i: nat, ms: seq<nat>)
    requires StillOpen(t, i, ms) && Find(t, "*/", Behind(i, ms)).None?
    ensures forall x: nat :: !Closes(t, i, x)
  {
    NoneBefore(t, "*/", Behind(i, ms));
    hide Find, Closes;
    forall x: nat ensures !Closes(t, i, x) { NeverCloses(t, i, ms, x); }
  }

  /** The loop ends where the comment does. */
  lemma {:induction false} BlockLoop(t: string, i: nat, ms: seq<nat>, depth: nat)
    requires StillOpen(t, i, ms) && Behind(i, ms) <= |t| && Surplus(t, ms) == depth > 0
    ensures var e := BlockEnd(t, Behind(i, ms), depth);
      Closes(t, i, e) || (e == |t| && forall x: nat :: !Closes(t, i, x))
    decreases |t| - Behind(i, ms)
  {
    hide *;
    var j := Behind(i, ms);
    UnfoldBlock(t, j, depth);
    if Find(t, "*/", j).None? {
      NoCloser(t, i, ms);
    } else {
      var m := NextMark(t, j);
      MarkNext(t, i, ms, m);
      if Surplus(t, ms + [m]) > 0 {
        BlockLoop(t, i, ms + [m], Surplus(t, ms + [m]));
      } else {
        ClosingCloses(t, i, ms + [m], m + 2);
        UnfoldBlock(t, m + 2, 0);
      }
    }
  }

  lemma ClosingCloses(t: string, i: nat, ms: seq<nat>, e: nat)
    ensures Closing(t, i, ms, e) ==> Closes(t, i, e)
  {
  }

  /** A block comment ends just past the first closer at which its openers and closers are equal. */
  lemma BlockEndIs(t: string, i: nat, e: nat)
    requires Has(t, i, "/*")
    ensures BlockComment(t, i, e) <==> e == BlockEnd(t, i + 2, 1)
  {
    var ms := [i];
    assert ms[..0] == [] && ms[..1] == ms && Marks(t, i, []) && Marks(t, i, ms) && Surplus(t, ms) == 1;
    assert StillOpen(t, i, ms);
    BlockLoop(t, i, ms, 1);
    hide Marks, Surplus, StillOpen, Closes, BlockEnd;
    var f := BlockEnd(t, i + 2, 1);
    if Closes(t, i, e) && Closes(t, i, f) { ClosesOnce(t, i, e, f); }
  }

  // ------------------------------------------------------------------ line comments

  ghost predicate LineComment(t: string, i: nat, e: nat) {
    && Has(t, i, "//") && i + 2 <= e <= |t|
    && (forall k :: i + 2 <= k < e ==> t[k] != '\n') && (e < |t| ==> t[e] == '\n')
  }

  lemma {:induction false} LineEndIs(t: string, i: nat, e: nat)
    requires i <= |t|
    ensures e == LineEnd(t, i) <==> i <= e <= |t| && (forall k :: i <= k < e ==> t[k] != '\n') && (e < |t| ==> t[e] == '\n')
    decreases |t| - i
  {
    if i < |t| && t[i] != '\n' { LineEndIs(t, i + 1, e); }
  }

  // ------------------------------------------------------------------ strings

  /** Backslashes directly in front of `k`, none before `lo`. */
  ghost function Slashes(t: string, lo: nat, k: nat): nat
    requires k <= |t|
    decreases k
  {
    if lo < k && t[k - 1] == '\\' then 1 + Slashes(t, lo, k - 1) else 0
  }

  /** A quote at `k` that the text from `lo` on does not escape. */
  ghost predicate Quote(t: string, lo: nat, k: nat) {
    k < |t| && t[k] == '"' && Slashes(t, lo, k) % 2 == 0
  }

  /** The string whose content begins at `lo` ends at `e`: just past its first unescaped quote, or with the text. */
  ghost predicate StringTo(t: string, lo: nat, e: nat, closed: bool) {
    if closed then lo < e && Quote(t, lo, e - 1) && forall k :: lo <= k < e - 1 ==> !Quote(t, lo, k)
    else e == |t| && forall k :: lo <= k ==> !Quote(t, lo, k)
  }

  /** From a place that is not escaped on, the search finds the first unescaped quote. */
  lemma {:induction false} StrEndIs(t: string, lo: nat, i: nat)
    requires lo <= i && (i <= |t| ==> Slashes(t, lo, i) % 2 == 0)
    ensures match StrEnd(t, i)
      case None => forall k :: i <= k ==> !Quote(t, lo, k)
      case Some(e) => i < e && Quote(t, lo, e - 1) && forall k :: i <= k < e - 1 ==> !Quote(t, lo, k)
    decreases |t| - i
  {
    if i < |t| && t[i] != '"' {
      if t[i] == '\\' {
        if i + 1 < |t| { StrEndIs(t, lo, i + 2); }
      } else {
        StrEndIs(t, lo, i + 1);
      }
    }
  }

  // ------------------------------------------------------------------ raw strings

  /** `r`, `br` or `cr`, `h` hashes and a quote at `i`, behind no word; the content begins at `body`. */
  ghost predicate RawOpens(cs: Chars, t: string, i: nat, h: nat, body: nat) {
    && (i > 0 && i <= |t| ==> !cs.word(t[i - 1]))
    && exists p :: p in {"r", "br", "cr"} && Has(t, i, p + Hashes(h) + "\"") && body == i + |p| + h + 1
  }

  /** The raw string ends behind the first quote that its own hashes follow, or with the text. */
  ghost predicate RawTo(t: string, body: nat, h: nat, e: nat, closed: bool) {
    var close := "\"" + Hashes(h);
    if closed then body + |close| <= e && Has(t, e - |close|, close) && forall k :: body <= k < e - |close| ==> !Has(t, k, close)
    else e == |t| && forall k :: body <= k ==> !Has(t, k, close)
  }

  lemma HasParts(t: string, i: nat, x: string, y: string)
    ensures Has(t, i, x + y) <==> Has(t, i, x) && Has(t, i + |x|, y)
  {
    if i + |x| + |y| <= |t| { assert t[i..i + |x| + |y|] == t[i..i + |x|] + t[i + |x|..i + |x| + |y|]; }
    if Has(t, i, x + y) {
      assert (x + y)[..|x|] == x && (x + y)[|x|..] == y;
    }
  }

  lemma {:induction false} HashRunIs(t: string, i: nat)
    ensures var n := HashRun(t, i); Has(t, i, Hashes(n)) || (n == 0 && i > |t|)
    ensures At(t, i + HashRun(t, i)) != Some('#')
    decreases |t| - i
  {
    if i < |t| && t[i] == '#' {
      HashRunIs(t, i + 1);
      var n := HashRun(t, i + 1);
      assert t[i..i + 1 + n] == [t[i]] + t[i + 1..i + 1 + n];
      assert Hashes(n + 1) == ['#'] + Hashes(n);
    }
  }

  lemma {:induction false} HashRunOne(t: string, i: nat, h: nat)
    requires Has(t, i, Hashes(h)) && At(t, i + h) != Some('#')
    ensures HashRun(t, i) == h
    decreases h
  {
    if h > 0 {
      assert t[i..i + h][0] == '#' && t[i + 1..i + h] == t[i..i + h][1..];
      assert Hashes(h)[1..] == Hashes(h - 1);
      HashRunOne(t, i + 1, h - 1);
    }
  }

  lemma OneChar(t: string, i: nat, c: char)
    ensures Has(t, i, [c]) <==> At(t, i) == Some(c)
  {
    if i < |t| { assert t[i..i + 1] == [t[i]]; }
  }

  /** The prefix in front of the hashes is the one the text has. */
  lemma HashesThenQuote(t: string, i: nat, p: string, h: nat)
    ensures Has(t, i, p + Hashes(h) + "\"") <==>
      Has(t, i, p) && HashRun(t, i + |p|) == h && At(t, i + |p| + h) == Some('"')
  {
    HasParts(t, i, p + Hashes(h), "\"");
    HasParts(t, i, p, Hashes(h));
    OneChar(t, i + |p| + h, '"');
    HashRunIs(t, i + |p|);
    if Has(t, i, p) && Has(t, i + |p|, Hashes(h)) && At(t, i + |p| + h) == Some('"') { HashRunOne(t, i + |p|, h); }
    hide Has, HashRun, Hashes;
  }

  /** The prefix `p`, then `h` hashes and a quote, as the search finds them. */
  ghost predicate RawWith(t: string, i: nat, p: string, h: nat, body: nat) {
    Has(t, i, p) && HashRun(t, i + |p|) == h && At(t, i + |p| + h) == Some('"') && body == i + |p| + h + 1
  }

  lemma RawOpensWith(cs: Chars, t: string, i: nat, h: nat, body: nat)
    requires i < |t|
    ensures RawOpens(cs, t, i, h, body) <==>
      (i > 0 ==> !cs.word(t[i - 1]))
      && (RawWith(t, i, "r", h, body) || RawWith(t, i, "br", h, body) || RawWith(t, i, "cr", h, body))
  {
    HashesThenQuote(t, i, "r", h);
    HashesThenQuote(t, i, "br", h);
    HashesThenQuote(t, i, "cr", h);
    hide Has, HashRun, Hashes;
    if RawWith(t, i, "r", h, body) { assert "r" in {"r", "br", "cr"}; }
    if RawWith(t, i, "br", h, body) { assert "br" in {"r", "br", "cr"}; }
    if RawWith(t, i, "cr", h, body) { assert "cr" in {"r", "br", "cr"}; }
  }

  lemma RawOpenIs(cs: Chars, t: string, i: nat, h: nat, body: nat)
    requires i < |t|
    ensures RawOpen(cs, t, i) == Some((h, body)) <==> RawOpens(cs, t, i, h, body)
  {
    RawOpensWith(cs, t, i, h, body);
    OneChar(t, i, 'r');
    TwoChars(t, i, 'b', 'r');
    TwoChars(t, i, 'c', 'r');
    hide RawOpens, Has, HashRun, Hashes;
  }

  lemma RawToIs(t: string, i: nat, body: nat, h: nat, e: nat, closed: bool)
    requires i < body <= |t|
    ensures RawLiteral(t, i, body, h) == Literal(i, body, e, "\"" + Hashes(h), closed) <==> RawTo(t, body, h, e, closed)
  {
    var close := "\"" + Hashes(h);
    NoneBefore(t, close, body);
    if closed && RawTo(t, body, h, e, closed) {
      FirstOf(t, close, body, e - |close|);
    }
    hide Find, Has, Hashes;
  }

  // ------------------------------------------------------------------ character literals

  /** `'c'`, `'\c'`, `'\xHH'` or `'\u{H..}'`. */
  ghost predicate CharForm(t: string, i: nat, e: nat) {
    && i + 3 <= e <= |t| && t[i] == '\'' && t[e - 1] == '\''
    && (|| (e == i + 3 && t[i + 1] != '\\' && t[i + 1] != '\'' && t[i + 1] != '\n')
        || (e == i + 4 && t[i + 1] == '\\' && t[i + 2] != '\n')
        || (e == i + 6 && t[i + 1] == '\\' && t[i + 2] == 'x' && Hex(t[i + 3]) && Hex(t[i + 4]))
        || (e > i + 6 && t[i + 1] == '\\' && t[i + 2] == 'u' && t[i + 3] == '{' && t[e - 2] == '}'
            && forall k :: i + 4 <= k < e - 2 ==> Hex(t[k]) || t[k] == '_'))
  }

  lemma {:induction false} HexRunIs(t: string, i: nat, e: nat)
    requires i <= |t|
    ensures e == HexRun(t, i) <==>
      i <= e <= |t| && (forall k :: i <= k < e ==> Hex(t[k]) || t[k] == '_') && (e < |t| ==> !Hex(t[e]) && t[e] != '_')
    decreases |t| - i
  {
    if i < |t| && (Hex(t[i]) || t[i] == '_') { HexRunIs(t, i + 1, e); }
  }

  lemma TwoChars(t: string, i: nat, x: char, y: char)
    ensures Has(t, i, [x, y]) <==> At(t, i) == Some(x) && At(t, i + 1) == Some(y)
  {
    if i + 1 < |t| { assert t[i..i + 2] == [t[i], t[i + 1]]; }
  }

  /** The expression for character literals matches at `i` up to `e`. */
  lemma CharEndIs(t: string, i: nat, e: nat)
    requires i < |t| && t[i] == '\''
    ensures CharEnd(t, i) == Some(e) <==> CharForm(t, i, e)
  {
    TwoChars(t, i + 2, 'u', '{');
    if i + 4 <= |t| {
      HexRunIs(t, i + 4, HexRun(t, i + 4));
      TwoChars(t, HexRun(t, i + 4), '}', '\'');
      if e >= i + 6 { HexRunIs(t, i + 4, e - 2); }
    }
    hide Has, HexRun;
  }

  // ------------------------------------------------------------------ the pieces

  /** The text has this piece, where it begins. */
  ghost predicate Token(cs: Chars, t: string, p: Piece) {
    p.from < |t| && match p
    case Comment(from, to) => LineComment(t, from, to) || BlockComment(t, from, to)
    case Tick(from) => t[from] == '\'' && forall e: nat :: !CharForm(t, from, e)
    case CharLit(from, to) => CharForm(t, from, to)
    case Literal(from, body, to, close, closed) =>
      || (t[from] == '"' && body == from + 1 && close == "\"" && StringTo(t, body, to, closed))
      || exists h: nat :: RawOpens(cs, t, from, h, body) && close == "\"" + Hashes(h) && RawTo(t, body, h, to, closed)
  }

  /** Something begins at `i`. */
  ghost predicate Opens(cs: Chars, t: string, i: nat) {
    i < |t| && (Has(t, i, "//") || Has(t, i, "/*") || t[i] == '\'' || t[i] == '"' || exists h: nat, body: nat :: RawOpens(cs, t, i, h, body))
  }

  lemma CommentIs(cs: Chars, t: string, i: nat, p: Piece)
    requires i < |t| && (Has(t, i, "//") || Has(t, i, "/*"))
    ensures PieceAt(cs, t, i) == Some(p) <==> p.from == i && Token(cs, t, p)
  {
    TwoChars(t, i, '/', '/');
    TwoChars(t, i, '/', '*');
    if Has(t, i, "//") && p.Comment? { LineEndIs(t, i + 2, p.to); }
    if Has(t, i, "/*") && p.Comment? { BlockEndIs(t, i, p.to); }
    if p.Literal? { forall h: nat ensures !RawOpens(cs, t, i, h, p.body) { RawStarts(cs, t, i, h, p.body); } }
    hide Has, LineEnd, BlockEnd, Closes, RawOpens, RawTo, StringTo;
  }

  lemma RawStarts(cs: Chars, t: string, i: nat, h: nat, body: nat)
    ensures RawOpens(cs, t, i, h, body) ==> i < |t| && t[i] in "rbc" && i < body <= |t|
  {
    if RawOpens(cs, t, i, h, body) {
      var p :| p in {"r", "br", "cr"} && Has(t, i, p + Hashes(h) + "\"") && body == i + |p| + h + 1;
      assert t[i] == t[i..body][0];
    }
  }

  lemma QuoteIs(cs: Chars, t: string, i: nat, p: Piece)
    requires i < |t| && (t[i] == '\'' || t[i] == '"')
    ensures PieceAt(cs, t, i) == Some(p) <==> p.from == i && Token(cs, t, p)
  {
    TwoChars(t, i, '/', '/');
    TwoChars(t, i, '/', '*');
    if p.Literal? { forall h: nat ensures !RawOpens(cs, t, i, h, p.body) { RawStarts(cs, t, i, h, p.body); } }
    if t[i] == '\'' {
      forall e: nat ensures CharEnd(t, i) == Some(e) <==> CharForm(t, i, e) { CharEndIs(t, i, e); }
      hide CharForm, CharEnd;
    } else {
      StrEndIs(t, i + 1, i + 1);
      if p.Literal? { StringOne(t, i + 1, p.to, p.closed); }
    }
    hide Has, RawOpens, RawTo, BlockComment, LineComment, Quote, StrEnd;
  }

  lemma StringOne(t: string, lo: nat, e: nat, closed: bool)
    requires lo <= |t|
    ensures StringTo(t, lo, e, closed) <==> if closed then StrEnd(t, lo) == Some(e) else StrEnd(t, lo).None? && e == |t|
  {
    StrEndIs(t, lo, lo);
    hide Quote, StrEnd;
  }

  lemma RawIs(cs: Chars, t: string, i: nat, p: Piece)
    requires i < |t| && !Has(t, i, "//") && !Has(t, i, "/*") && t[i] != '\'' && t[i] != '"'
    ensures PieceAt(cs, t, i) == Some(p) <==> p.from == i && Token(cs, t, p)
  {
    forall h: nat, body: nat ensures RawOpen(cs, t, i) == Some((h, body)) <==> RawOpens(cs, t, i, h, body) { RawOpenIs(cs, t, i, h, body); }
    if RawOpen(cs, t, i).Some? && p.Literal? {
      var (h, body) := RawOpen(cs, t, i).value;
      RawToIs(t, i, body, h, p.to, p.closed);
    }
    hide Has, RawOpen, RawOpens, RawTo, RawLiteral, StringTo, CharForm, BlockEnd, LineEnd, Hashes;
  }

  /** What the search finds at `i` is the piece the text has there. */
  lemma PieceIs(cs: Chars, t: string, i: nat, p: Piece)
    requires i < |t|
    ensures PieceAt(cs, t, i) == Some(p) <==> p.from == i && Token(cs, t, p)
  {
    hide PieceAt, Token;
    if Has(t, i, "//") || Has(t, i, "/*") {
      CommentIs(cs, t, i, p);
    } else if t[i] == '\'' || t[i] == '"' {
      QuoteIs(cs, t, i, p);
    } else {
      RawIs(cs, t, i, p);
    }
  }

  lemma OpensIs(cs: Chars, t: string, i: nat)
    requires i < |t|
    ensures PieceAt(cs, t, i).Some? <==> Opens(cs, t, i)
  {
    forall h: nat, body: nat ensures RawOpen(cs, t, i) == Some((h, body)) <==> RawOpens(cs, t, i, h, body) { RawOpenIs(cs, t, i, h, body); }
    hide Has, RawOpen, RawOpens, RawLiteral, CharEnd, StrEnd, BlockEnd, LineEnd;
  }

  // ------------------------------------------------------------------ the whole source

  /** From `pos` on the text is these pieces in order, and no piece begins anywhere between or behind them. */
  ghost predicate Lexed(cs: Chars, t: string, pos: nat, ps: seq<Piece>)
    decreases |ps|
  {
    if ps == [] then forall q: nat :: pos <= q ==> !Opens(cs, t, q)
    else
      && pos <= ps[0].from && Token(cs, t, ps[0]) && (forall q: nat :: pos <= q < ps[0].from ==> !Opens(cs, t, q))
      && Lexed(cs, t, End(ps[0]), ps[1..])
  }

  lemma {:induction false} NextIs(cs: Chars, t: string, pos: nat)
    requires pos <= |t|
    ensures match NextPiece(cs, t, pos)
      case None => forall q: nat :: pos <= q ==> !Opens(cs, t, q)
      case Some(p) => pos <= p.from < End(p) <= |t| && Token(cs, t, p) && Opens(cs, t, p.from)
                      && forall q: nat :: pos <= q < p.from ==> !Opens(cs, t, q)
    decreases |t| - pos
  {
    hide PieceAt, Opens, Token;
    if pos < |t| {
      OpensIs(cs, t, pos);
      if PieceAt(cs, t, pos).Some? {
        PieceIs(cs, t, pos, PieceAt(cs, t, pos).value);
      } else {
        NextIs(cs, t, pos + 1);
      }
    } else {
      forall q: nat | pos <= q ensures !Opens(cs, t, q) { NoneBehind(cs, t, q); }
    }
  }

  lemma NoneBehind(cs: Chars, t: string, q: nat)
    ensures q >= |t| ==> !Opens(cs, t, q)
  {
  }

  lemma TokenOpens(cs: Chars, t: string, p: Piece)
    requires Token(cs, t, p)
    ensures p.from < End(p) <= |t| && WellFormed(t, p) && Opens(cs, t, p.from) && PieceAt(cs, t, p.from) == Some(p)
  {
    assert p.from < |t| by { TokenInside(cs, t, p); }
    hide PieceAt, Opens, Token;
    PieceIs(cs, t, p.from, p);
    OpensIs(cs, t, p.from);
  }

  lemma TokenInside(cs: Chars, t: string, p: Piece)
    ensures Token(cs, t, p) ==> p.from < |t|
  {
  }

  /** The first of the pieces is what the search finds next. */
  lemma FirstPiece(cs: Chars, t: string, pos: nat, ps: seq<Piece>)
    requires pos <= |t| && Lexed(cs, t, pos, ps)
    ensures NextPiece(cs, t, pos) == if ps == [] then None else Some(ps[0])
    ensures ps != [] ==> pos <= ps[0].from < End(ps[0]) <= |t| && WellFormed(t, ps[0]) && Lexed(cs, t, End(ps[0]), ps[1..])
  {
    hide NextPiece, Opens, Token;
    NextIs(cs, t, pos);
    if ps != [] {
      TokenOpens(cs, t, ps[0]);
      var p := NextPiece(cs, t, pos).value;
      assert p.from == ps[0].from;
      TokenOpens(cs, t, p);
    }
  }

  /** Every source is such a sequence of pieces. */
  lemma {:induction false} LexedSome(cs: Chars, t: string, pos: nat) returns (ps: seq<Piece>)
    requires pos <= |t|
    ensures Lexed(cs, t, pos, ps)
    decreases |t| - pos
  {
    NextIs(cs, t, pos);
    hide NextPiece, Opens, Token;
    match NextPiece(cs, t, pos)
    case None => ps := [];
    case Some(p) =>
      var rest := LexedSome(cs, t, End(p));
      ps := [p] + rest;
      assert ps[1..] == rest;
  }

  /** And of only one. */
  lemma {:induction false} LexedOnce(cs: Chars, t: string, pos: nat, ps: seq<Piece>, qs: seq<Piece>)
    requires pos <= |t| && Lexed(cs, t, pos, ps) && Lexed(cs, t, pos, qs)
    ensures ps == qs
    decreases |ps|
  {
    FirstPiece(cs, t, pos, ps);
    FirstPiece(cs, t, pos, qs);
    if ps != [] {
      hide Lexed;
      LexedOnce(cs, t, End(ps[0]), ps[1..], qs[1..]);
      assert ps == [ps[0]] + ps[1..] && qs == [qs[0]] + qs[1..];
    }
  }

  // ------------------------------------------------------------------ what is blanked

  /** Offset `i` is in a comment. */
  ghost predicate InComment(ps: seq<Piece>, i: nat) {
    exists p :: p in ps && p.Comment? && p.from <= i < p.to
  }

  /** Offset `i` is in a comment or between the quotes of a literal. */
  ghost predicate InQuotes(ps: seq<Piece>, i: nat) {
    exists p :: p in ps && p.from <= i < End(p) && Hidden(p, i)
  }

  predicate Open(p: Piece) { p.Literal? && !p.closed }

  /** The literal that never closes, if there is one. */
  ghost function LastOpen(ps: seq<Piece>): Option<Piece> {
    if ps != [] && Open(ps[|ps| - 1]) then Some(ps[|ps| - 1]) else None
  }

  /** Where it begins, or the end of the text. */
  ghost function OpenFrom(t: string, last: Option<Piece>): nat {
    match last case None => |t| case Some(p) => p.from
  }

  /** What comes from there on: the literal with its content blanked and the delimiter made up. */
  ghost function OpenTail(t: string, last: Option<Piece>): string {
    match last
    case None => ""
    case Some(p) => if p.Literal? then Slice(t, p.from, p.body) + Blank(Slice(t, p.body, |t| - |p.close|)) + p.close else ""
  }

  /** `t[i..j]`, nothing when `j` is before `i`. */
  function Slice(t: string, i: nat, j: int): string {
    if i <= j <= |t| then t[i..j] else ""
  }

  lemma {:induction false} AllBehind(cs: Chars, t: string, pos: nat, ps: seq<Piece>, p: Piece)
    requires pos <= |t| && Lexed(cs, t, pos, ps) && p in ps
    ensures pos <= p.from < End(p) <= |t|
    decreases |ps|
  {
    FirstPiece(cs, t, pos, ps);
    hide Lexed;
    if p != ps[0] {
      assert p in ps[1..];
      AllBehind(cs, t, End(ps[0]), ps[1..], p);
    }
  }

  /** At an offset only the piece that holds it counts. */
  lemma InPieces(cs: Chars, t: string, pos: nat, ps: seq<Piece>, i: nat)
    requires pos <= |t| && Lexed(cs, t, pos, ps) && ps != []
    ensures InComment(ps, i) <==>
      if i < ps[0].from then false else if i < End(ps[0]) then ps[0].Comment? else InComment(ps[1..], i)
    ensures InQuotes(ps, i) <==>
      if i < ps[0].from then false else if i < End(ps[0]) then Hidden(ps[0], i) else InQuotes(ps[1..], i)
  {
    FirstPiece(cs, t, pos, ps);
    forall p | p in ps[1..] ensures End(ps[0]) <= p.from < End(p) { AllBehind(cs, t, End(ps[0]), ps[1..], p); }
    hide Lexed, Hidden;
    assert forall p :: p in ps <==> p == ps[0] || p in ps[1..];
  }

  lemma OpenRest(ps: seq<Piece>)
    requires ps != [] && !Open(ps[0])
    ensures LastOpen(ps) == LastOpen(ps[1..])
  {
    hide Open;
    if |ps| > 1 { assert ps[1..][|ps| - 2] == ps[|ps| - 1]; }
  }

  /** A literal that never closes is the last piece. */
  lemma OpenIsLast(cs: Chars, t: string, pos: nat, ps: seq<Piece>)
    requires pos <= |t| && Lexed(cs, t, pos, ps) && ps != [] && Open(ps[0])
    ensures ps[1..] == [] && LastOpen(ps) == Some(ps[0]) && End(ps[0]) == |t| && pos <= ps[0].from
    ensures WellFormed(t, ps[0]) && OpenTail(t, LastOpen(ps)) == RenderB(t, ps[0])
  {
    FirstPiece(cs, t, pos, ps);
    OpenEnds(t, ps[0]);
    hide Lexed, OpenTail, RenderB, WellFormed, Open, End;
    NoRest(cs, t, ps[1..]);
  }

  lemma NoRest(cs: Chars, t: string, rest: seq<Piece>)
    requires Lexed(cs, t, |t|, rest)
    ensures rest == []
  {
    FirstPiece(cs, t, |t|, rest);
    hide Lexed, NextPiece;
  }

  lemma OpenEnds(t: string, p: Piece)
    requires WellFormed(t, p) && Open(p)
    ensures End(p) == |t| && OpenTail(t, Some(p)) == RenderB(t, p)
  {
  }

  /** A stretch of text, a piece and what follows it, at an offset of the source. */
  lemma TextAt(w: string, t: string, pos: nat, from: nat, mid: string, tail: string, i: nat)
    requires pos <= from <= |t| && w == (t[pos..from] + mid) + tail && pos <= i
    ensures |w| == from - pos + |mid| + |tail|
    ensures i < from ==> w[i - pos] == t[i]
    ensures from <= i < from + |mid| ==> w[i - pos] == mid[i - from]
    ensures from + |mid| <= i < from + |mid| + |tail| ==> w[i - pos] == tail[i - from - |mid|]
  {
  }

  lemma FirstLength(cs: Chars, t: string, pos: nat)
    requires pos <= |t|
    ensures |MaskA(cs, t, pos)| == |t| - pos
  {
    MaskAShadows(cs, t, pos);
  }

  lemma PlainText(t: string, pos: nat, i: nat)
    requires pos <= i < |t|
    ensures t[pos..][i - pos] == t[i]
  {
  }

  lemma NoPieces(t: string, i: nat)
    ensures !InComment([], i) && !InQuotes([], i) && LastOpen([]) == None && OpenFrom(t, None) == |t| && OpenTail(t, None) == ""
  {
  }

  lemma {:induction false} FirstTextAt(cs: Chars, t: string, pos: nat, ps: seq<Piece>, i: nat)
    requires pos <= i < |t| && Lexed(cs, t, pos, ps)
    ensures |MaskA(cs, t, pos)| == |t| - pos && MaskA(cs, t, pos)[i - pos] == Shown(t, InComment(ps, i), i)
    decreases |ps|
  {
    hide *;
    FirstLength(cs, t, pos);
    UnfoldMask(cs, t, pos);
    FirstPiece(cs, t, pos, ps);
    NotHidden(t, i);
    if ps == [] {
      NoPieces(t, i);
      PlainText(t, pos, i);
    } else {
      var p := ps[0];
      InPieces(cs, t, pos, ps, i);
      RenderAAt(t, p, if p.from <= i < End(p) then i else p.from);
      FirstLength(cs, t, End(p));
      TextAt(MaskA(cs, t, pos), t, pos, p.from, RenderA(t, p), MaskA(cs, t, End(p)), i);
      if End(p) <= i { FirstTextAt(cs, t, End(p), ps[1..], i); }
    }
  }

  lemma {:induction false} SecondTextAt(cs: Chars, t: string, pos: nat, ps: seq<Piece>, i: nat)
    requires pos <= i < OpenFrom(t, LastOpen(ps)) && i < |t| && Lexed(cs, t, pos, ps)
    ensures i - pos < |MaskB(cs, t, pos)| && MaskB(cs, t, pos)[i - pos] == Shown(t, InQuotes(ps, i), i)
    decreases |ps|
  {
    hide *;
    UnfoldMask(cs, t, pos);
    FirstPiece(cs, t, pos, ps);
    NotHidden(t, i);
    if ps == [] {
      NoPieces(t, i);
      PlainText(t, pos, i);
    } else {
      var p := ps[0];
      InPieces(cs, t, pos, ps, i);
      TextAt(MaskB(cs, t, pos), t, pos, p.from, RenderB(t, p), MaskB(cs, t, End(p)), i);
      if Open(p) {
        OpenIsLast(cs, t, pos, ps);
        OpenAt(t, p);
      } else {
        ClosedAt(t, p, if p.from <= i < End(p) then i else p.from);
        OpenRest(ps);
        if End(p) <= i { SecondTextAt(cs, t, End(p), ps[1..], i); }
      }
    }
  }

  lemma ClosedAt(t: string, p: Piece, i: nat)
    requires WellFormed(t, p) && !Open(p) && p.from <= i < End(p)
    ensures |RenderB(t, p)| == End(p) - p.from && RenderB(t, p)[i - p.from] == Shown(t, Hidden(p, i), i)
  {
    hide RenderA, RenderB, Shown, Hidden, WellFormed;
    RenderAt(t, p, i);
  }

  lemma OpenAt(t: string, p: Piece)
    ensures OpenFrom(t, Some(p)) == p.from
  {
  }

  lemma TailOf(w: string, x: string, y: string, z: string, n: nat, k: nat)
    requires w == (x + y) + z && n <= |z| && k == |x| + |y| + n
    ensures k <= |w| && w[k..] == z[n..]
  {
  }

  lemma TailLast(w: string, x: string, y: string)
    requires w == (x + y) + ""
    ensures |x| <= |w| && w[|x|..] == y
  {
  }

  lemma SecondTailOpen(cs: Chars, t: string, pos: nat, ps: seq<Piece>)
    requires pos <= |t| && Lexed(cs, t, pos, ps) && ps != [] && Open(ps[0])
    ensures pos <= ps[0].from && ps[0].from - pos <= |MaskB(cs, t, pos)|
    ensures MaskB(cs, t, pos)[ps[0].from - pos..] == OpenTail(t, LastOpen(ps))
  {
    hide *;
    UnfoldMask(cs, t, pos);
    FirstPiece(cs, t, pos, ps);
    OpenIsLast(cs, t, pos, ps);
    var p := ps[0];
    UnfoldMask(cs, t, |t|);
    FirstPiece(cs, t, |t|, ps[1..]);
    TailLast(MaskB(cs, t, pos), t[pos..p.from], RenderB(t, p));
  }

  lemma SecondTailMore(cs: Chars, t: string, pos: nat, p: Piece, n: nat)
    requires pos <= |t| && NextPiece(cs, t, pos) == Some(p) && p.from < End(p) <= |t| && WellFormed(t, p) && !Open(p)
    requires n <= |MaskB(cs, t, End(p))|
    ensures End(p) + n - pos <= |MaskB(cs, t, pos)|
    ensures MaskB(cs, t, pos)[End(p) + n - pos..] == MaskB(cs, t, End(p))[n..]
  {
    hide *;
    UnfoldMask(cs, t, pos);
    ClosedAt(t, p, p.from);
    TailOf(MaskB(cs, t, pos), t[pos..p.from], RenderB(t, p), MaskB(cs, t, End(p)), n, End(p) + n - pos);
  }

  lemma {:induction false} SecondTail(cs: Chars, t: string, pos: nat, ps: seq<Piece>)
    requires pos <= |t| && Lexed(cs, t, pos, ps)
    ensures pos <= OpenFrom(t, LastOpen(ps)) && OpenFrom(t, LastOpen(ps)) - pos <= |MaskB(cs, t, pos)|
    ensures MaskB(cs, t, pos)[OpenFrom(t, LastOpen(ps)) - pos..] == OpenTail(t, LastOpen(ps))
    decreases |ps|
  {
    hide *;
    FirstPiece(cs, t, pos, ps);
    if ps == [] {
      UnfoldMask(cs, t, pos);
      NoPieces(t, pos);
    } else if Open(ps[0]) {
      OpenIsLast(cs, t, pos, ps);
      OpenAt(t, ps[0]);
      SecondTailOpen(cs, t, pos, ps);
    } else {
      OpenRest(ps);
      SecondTail(cs, t, End(ps[0]), ps[1..]);
      SecondTailMore(cs, t, pos, ps[0], OpenFrom(t, LastOpen(ps)) - End(ps[0]));
    }
  }

  /** The two texts of a source, by its pieces. The first blanks exactly the comments. The second also blanks what literals
      quote, up to a literal that never closes; that one comes with its delimiter made up. */
  lemma MaskRead(cs: Chars, t: string, ps: seq<Piece>)
    requires Lexed(cs, t, 0, ps)
    ensures |MaskA(cs, t, 0)| == |t| && forall i :: 0 <= i < |t| ==> MaskA(cs, t, 0)[i] == Shown(t, InComment(ps, i), i)
    ensures OpenFrom(t, LastOpen(ps)) <= |t| && OpenFrom(t, LastOpen(ps)) <= |MaskB(cs, t, 0)|
    ensures forall i :: 0 <= i < OpenFrom(t, LastOpen(ps)) ==> MaskB(cs, t, 0)[i] == Shown(t, InQuotes(ps, i), i)
    ensures MaskB(cs, t, 0)[OpenFrom(t, LastOpen(ps))..] == OpenTail(t, LastOpen(ps))
  {
    hide *;
    FirstLength(cs, t, 0);
    SecondTail(cs, t, 0, ps);
    OpenInside(cs, t, 0, ps);
    forall i | 0 <= i < |t| ensures MaskA(cs, t, 0)[i] == Shown(t, InComment(ps, i), i) { FirstTextAt(cs, t, 0, ps, i); }
    forall i | 0 <= i < OpenFrom(t, LastOpen(ps)) ensures MaskB(cs, t, 0)[i] == Shown(t, InQuotes(ps, i), i) { SecondTextAt(cs, t, 0, ps, i); }
  }

  lemma OpenInside(cs: Chars, t: string, pos: nat, ps: seq<Piece>)
    requires pos <= |t| && Lexed(cs, t, pos, ps)
    ensures OpenFrom(t, LastOpen(ps)) <= |t|
  {
    if ps != [] { AllBehind(cs, t, pos, ps, ps[|ps| - 1]); }
    hide Lexed;
  }
}
