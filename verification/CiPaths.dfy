/** ci/ci_paths.py: a path filter as GitHub documents it, translated to a regular expression. */
module CiPaths {

  // ------------------------------------------------------------------ what a filter means

  /** `*`, `**`, `**` followed by a slash, `?`, or a character that stands for itself. */
  datatype Token = AnyName | AnyText | AnyDirs | One | Plain(c: char)

  function Spelling(t: Token): string {
    match t
    case AnyName => "*"
    case AnyText => "**"
    case AnyDirs => "**/"
    case One => "?"
    case Plain(c) => [c]
  }

  function Spell(tokens: seq<Token>): string {
    if tokens == [] then "" else Spelling(tokens[0]) + Spell(tokens[1..])
  }

  /** Whether `t` may stand in front of `rest`: the longest operator is the one that is meant. */
  predicate Longest(t: Token, rest: string) {
    && (t.Plain? ==> t.c != '*' && t.c != '?')
    && (t.AnyName? ==> rest == "" || rest[0] != '*')
    && (t.AnyText? ==> rest == "" || rest[0] != '/')
  }

  /** `tokens` is how `pattern` is read: it spells it, and every operator is as long as it can be. */
  ghost predicate Reads(pattern: string, tokens: seq<Token>) {
    Spell(tokens) == pattern && forall i :: 0 <= i < |tokens| ==> Longest(tokens[i], Spell(tokens[i + 1..]))
  }

  /** What the text that one token matches looks like; `lines` says whether `**` may go past a newline. */
  predicate Means(t: Token, s: string, lines: bool) {
    match t
    case AnyName => '/' !in s
    case AnyText => lines || '\n' !in s
    case AnyDirs => s == "" || (s[|s| - 1] == '/' && (lines || '\n' !in s))
    case One => |s| == 1 && s[0] != '/'
    case Plain(c) => s == [c]
  }

  function Concat(pieces: seq<string>): string {
    if pieces == [] then "" else pieces[0] + Concat(pieces[1..])
  }

  /** `path` is one piece after another, each of them what its token allows. */
  ghost predicate Pieces(tokens: seq<Token>, path: string, pieces: seq<string>, lines: bool) {
    && |pieces| == |tokens| && Concat(pieces) == path
    && forall i :: 0 <= i < |tokens| ==> Means(tokens[i], pieces[i], lines)
  }

  ghost predicate Divides(tokens: seq<Token>, path: string, lines: bool) {
    exists pieces :: Pieces(tokens, path, pieces, lines)
  }

  /** The documented meaning of a filter: `**` matches any characters. */
  ghost predicate Selects(pattern: string, path: string) {
    exists tokens :: Reads(pattern, tokens) && Divides(tokens, path, true)
  }

  // ------------------------------------------------------------------ regular expressions

  datatype Re = Lit(c: char) | NotSlash | Dot | Star(r: Re) | Opt(r: Re) | Cat(a: Re, b: Re) | Empty

  /** Whether the whole of `s` matches. */
  predicate Accepts(r: Re, s: string)
    decreases |s|, r
  {
    match r
    case Empty => s == ""
    case Lit(c) => s == [c]
    case NotSlash => |s| == 1 && s[0] != '/'
    case Dot => |s| == 1 && s[0] != '\n'
    case Star(q) => s == "" || exists k :: 0 < k <= |s| && Accepts(q, s[..k]) && Accepts(r, s[k..])
    case Opt(q) => s == "" || Accepts(q, s)
    case Cat(a, b) => exists k :: 0 <= k <= |s| && Accepts(a, s[..k]) && Accepts(b, s[k..])
  }

  function Join(out: seq<Re>): Re {
    if out == [] then Empty else Cat(out[0], Join(out[1..]))
  }

  function Render(t: Token): Re {
    match t
    case AnyName => Star(NotSlash)
    case AnyText => Star(Dot)
    case AnyDirs => Opt(Cat(Star(Dot), Lit('/')))
    case One => NotSlash
    case Plain(c) => Lit(c)
  }

  function RenderAll(tokens: seq<Token>): seq<Re> {
    if tokens == [] then [] else [Render(tokens[0])] + RenderAll(tokens[1..])
  }

  /** The token at the front of a non-empty pattern. */
  function Front(p: string): (t: Token)
    requires p != ""
    ensures 1 <= |Spelling(t)| <= |p| && p == Spelling(t) + p[|Spelling(t)|..]
    ensures Longest(t, p[|Spelling(t)|..])
  {
    if "**/" <= p then AnyDirs
    else if "**" <= p then (assert p[2..] == "" || p[2..][0] == p[2]; assert p == "**" + p[2..]; AnyText)
    else if p[0] == '*' then AnyName
    else if p[0] == '?' then One
    else Plain(p[0])
  }

  function Tokens(p: string): seq<Token>
    decreases |p|
  {
    if p == "" then [] else [Front(p)] + Tokens(p[|Spelling(Front(p))|..])
  }

  // ------------------------------------------------------------------ one way to read a pattern

  lemma FrontOf(t: Token, rest: string)
    requires Longest(t, rest)
    ensures Spelling(t) + rest != "" && Front(Spelling(t) + rest) == t
    ensures (Spelling(t) + rest)[|Spelling(t)|..] == rest
  {
    var p := Spelling(t) + rest;
    assert rest == "" || p[|Spelling(t)|] == rest[0];
    assert p[0] == Spelling(t)[0];
    assert "**" <= p ==> p[1] == '*';
    assert "**/" <= p ==> p[1] == '*' && p[2] == '/';
    match t
    case AnyName =>
    case AnyText => assert p[1] == '*';
    case AnyDirs => assert p[..3] == "**/";
    case One =>
    case Plain(c) =>
  }

  lemma {:induction false} ReadsRest(p: string, tokens: seq<Token>)
    requires Reads(p, tokens) && tokens != []
    ensures p == Spelling(tokens[0]) + Spell(tokens[1..]) && Longest(tokens[0], Spell(tokens[1..]))
    ensures Reads(Spell(tokens[1..]), tokens[1..])
  {
    forall i | 0 <= i < |tokens[1..]| ensures Longest(tokens[1..][i], Spell(tokens[1..][i + 1..])) {
      assert tokens[1..][i + 1..] == tokens[i + 2..];
    }
  }

  lemma {:induction false} TokensRead(p: string)
    ensures Reads(p, Tokens(p))
    decreases |p|
  {
    if p != "" {
      var t := Front(p);
      var rest := p[|Spelling(t)|..];
      TokensRead(rest);
      var tokens := Tokens(p);
      assert tokens[1..] == Tokens(rest);
      forall i | 0 <= i < |tokens| ensures Longest(tokens[i], Spell(tokens[i + 1..])) {
        if i > 0 { assert tokens[i + 1..] == tokens[1..][i..]; }
      }
    }
  }

  /** A pattern can be read in exactly one way. */
  lemma {:induction false} OneReading(p: string, tokens: seq<Token>)
    ensures Reads(p, tokens) <==> tokens == Tokens(p)
    decreases |tokens|
  {
    TokensRead(p);
    if Reads(p, tokens) && tokens != [] {
      ReadsRest(p, tokens);
      FrontOf(tokens[0], Spell(tokens[1..]));
      OneReading(Spell(tokens[1..]), tokens[1..]);
      assert tokens == [tokens[0]] + tokens[1..];
    }
  }

  // ------------------------------------------------------------------ the expression means what the filter means

  lemma {:induction false} StarMeans(q: Re, s: string)
    requires q.NotSlash? || q.Dot?
    ensures Accepts(Star(q), s) <==> forall i :: 0 <= i < |s| ==> s[i] != (if q.Dot? then '\n' else '/')
    decreases |s|
  {
    if s != "" {
      StarMeans(q, s[1..]);
      assert Accepts(q, s[..1]) <==> s[0] != (if q.Dot? then '\n' else '/');
      if k :| 0 < k <= |s| && Accepts(q, s[..k]) && Accepts(Star(q), s[k..]) { assert k == 1; }
      assert forall i :: 1 <= i < |s| ==> s[i] == s[1..][i - 1];
    }
  }

  lemma DirsMean(s: string)
    ensures Accepts(Render(AnyDirs), s) <==> Means(AnyDirs, s, false)
  {
    var body := Cat(Star(Dot), Lit('/'));
    if s != "" {
      var n := |s| - 1;
      StarMeans(Dot, s[..n]);
      assert s == s[..n] + [s[n]] && s[n..] == [s[n]];
      assert forall i :: 0 <= i < n ==> s[i] == s[..n][i];
      if k :| 0 <= k <= |s| && Accepts(Star(Dot), s[..k]) && Accepts(Lit('/'), s[k..]) { assert k == n; }
      if Means(AnyDirs, s, false) { assert Accepts(Star(Dot), s[..n]) && Accepts(Lit('/'), s[n..]); }
    }
  }

  lemma TokenMeans(t: Token, s: string)
    ensures Accepts(Render(t), s) <==> Means(t, s, false)
  {
    if t.AnyDirs? { DirsMean(s); }
    if t.AnyName? { StarMeans(NotSlash, s); }
    if t.AnyText? { StarMeans(Dot, s); }
  }

  lemma DividesStep(tokens: seq<Token>, s: string, lines: bool)
    requires tokens != []
    ensures Divides(tokens, s, lines) <==>
      exists k :: 0 <= k <= |s| && Means(tokens[0], s[..k], lines) && Divides(tokens[1..], s[k..], lines)
  {
    if Divides(tokens, s, lines) {
      var pieces :| Pieces(tokens, s, pieces, lines);
      var k := |pieces[0]|;
      assert s == pieces[0] + Concat(pieces[1..]);
      assert s[..k] == pieces[0] && s[k..] == Concat(pieces[1..]);
      assert Pieces(tokens[1..], s[k..], pieces[1..], lines);
    }
    if k :| 0 <= k <= |s| && Means(tokens[0], s[..k], lines) && Divides(tokens[1..], s[k..], lines) {
      var rest :| Pieces(tokens[1..], s[k..], rest, lines);
      var pieces := [s[..k]] + rest;
      assert pieces[1..] == rest && s == s[..k] + s[k..];
      forall i | 0 <= i < |tokens| ensures Means(tokens[i], pieces[i], lines) {
        if i > 0 { assert tokens[1..][i - 1] == tokens[i] && pieces[i] == rest[i - 1]; }
      }
      assert Pieces(tokens, s, pieces, lines);
    }
  }

  /** For every text: the expression matches when the text divides with no `**` past a newline. */
  lemma {:induction false} ExpressionMeans(tokens: seq<Token>, s: string)
    ensures Accepts(Join(RenderAll(tokens)), s) <==> Divides(tokens, s, false)
    decreases |tokens|
  {
    if tokens == [] {
      if s == "" { assert Pieces(tokens, s, [], false); }
    } else {
      DividesStep(tokens, s, false);
      var head, tail := Render(tokens[0]), Join(RenderAll(tokens[1..]));
      assert RenderAll(tokens)[1..] == RenderAll(tokens[1..]);
      assert Join(RenderAll(tokens)) == Cat(head, tail);
      forall k | 0 <= k <= |s|
        ensures Accepts(head, s[..k]) <==> Means(tokens[0], s[..k], false)
        ensures Accepts(tail, s[k..]) <==> Divides(tokens[1..], s[k..], false)
      {
        TokenMeans(tokens[0], s[..k]);
        ExpressionMeans(tokens[1..], s[k..]);
      }
    }
  }

  lemma {:induction false} PieceOf(pieces: seq<string>, i: nat, c: char)
    requires i < |pieces| && c in pieces[i]
    ensures c in Concat(pieces)
    decreases |pieces|
  {
    if i > 0 { PieceOf(pieces[1..], i - 1, c); }
  }

  lemma WithoutNewlines(tokens: seq<Token>, s: string)
    ensures Divides(tokens, s, false) ==> Divides(tokens, s, true)
    ensures '\n' !in s && Divides(tokens, s, true) ==> Divides(tokens, s, false)
  {
    if Divides(tokens, s, false) {
      var pieces :| Pieces(tokens, s, pieces, false);
      assert Pieces(tokens, s, pieces, true);
    }
    if '\n' !in s && Divides(tokens, s, true) {
      var pieces :| Pieces(tokens, s, pieces, true);
      forall i | 0 <= i < |tokens| ensures Means(tokens[i], pieces[i], false) {
        if '\n' in pieces[i] { PieceOf(pieces, i, '\n'); }
      }
      assert Pieces(tokens, s, pieces, false);
    }
  }

  /** `regex(pattern).match(path)`. */
  predicate Matches(pattern: string, path: string) {
    Accepts(Join(RenderAll(Tokens(pattern))), path)
  }

  /** The expression matches exactly the paths that the documented filter selects, and never one more. */
  lemma MatchesSelects(pattern: string, path: string)
    ensures Matches(pattern, path) ==> Selects(pattern, path)
    ensures '\n' !in path ==> (Matches(pattern, path) <==> Selects(pattern, path))
  {
    var tokens := Tokens(pattern);
    OneReading(pattern, tokens);
    ExpressionMeans(tokens, path);
    WithoutNewlines(tokens, path);
    if Selects(pattern, path) {
      var ts :| Reads(pattern, ts) && Divides(ts, path, true);
      OneReading(pattern, ts);
    }
  }

  // ------------------------------------------------------------------ patterns whose expression says all the filter says

  predicate AnyDeep(t: Token) { t == AnyText || t == AnyDirs }

  /** The pattern holds two stars in a row. */
  ghost predicate Doubles(p: string) {
    exists i :: 0 <= i < |p| - 1 && p[i] == '*' && p[i + 1] == '*'
  }

  lemma {:induction false} DoublesRead(p: string)
    ensures Doubles(p) <==> exists i :: 0 <= i < |Tokens(p)| && AnyDeep(Tokens(p)[i])
    decreases |p|
  {
    if p != "" {
      var t := Front(p);
      var n := |Spelling(t)|;
      var rest := p[n..];
      DoublesRead(rest);
      assert Tokens(p) == [t] + Tokens(rest);
      if AnyDeep(t) {
        assert p[0] == Spelling(t)[0] && p[1] == Spelling(t)[1];
        assert Tokens(p)[0] == t;
      } else {
        assert n == 1 && p[0] == Spelling(t)[0];
        assert rest != "" ==> rest[0] == p[1];
        assert Doubles(p) <==> Doubles(rest) by { DoublesRest(p); }
        assert forall i :: 0 <= i < |Tokens(rest)| ==> Tokens(p)[i + 1] == Tokens(rest)[i];
      }
    }
  }

  lemma DoublesRest(p: string)
    requires p != "" && !(|p| > 1 && p[0] == '*' && p[1] == '*')
    ensures Doubles(p) <==> Doubles(p[1..])
  {
    if i :| 0 <= i < |p| - 1 && p[i] == '*' && p[i + 1] == '*' { assert p[1..][i - 1] == '*' && p[1..][i] == '*'; }
    if i :| 0 <= i < |p[1..]| - 1 && p[1..][i] == '*' && p[1..][i + 1] == '*' { assert p[i + 1] == '*' && p[i + 2] == '*'; }
  }

  /** How often a newline is followed by a slash. */
  function Turns(s: string): nat {
    if |s| < 2 then 0 else (if s[0] == '\n' && s[1] == '/' then 1 else 0) + Turns(s[1..])
  }

  lemma {:induction false} TurnsJoin(a: string, b: string)
    ensures Turns(a) + Turns(b) <= Turns(a + b) <= Turns(a) + Turns(b) + 1
    decreases |a|
  {
    if a == "" {
      assert a + b == b;
    } else {
      TurnsJoin(a[1..], b);
      assert (a + b)[1..] == a[1..] + b;
      if |a| == 1 { assert a[1..] + b == b; } else { assert (a + b)[1] == a[1]; }
    }
  }

  lemma {:induction false} NoTurns(s: string)
    requires '/' !in s || '\n' !in s
    ensures Turns(s) == 0
    decreases |s|
  {
    if |s| >= 2 {
      assert s[0] in s && s[1] in s;
      NoTurns(s[1..]);
    }
  }

  /** With no `**` past a newline, only the ends of pieces make turns. */
  lemma {:induction false} FewTurns(tokens: seq<Token>, path: string, pieces: seq<string>)
    requires Pieces(tokens, path, pieces, false)
    ensures Turns(path) <= |tokens|
    decreases |tokens|
  {
    if tokens != [] {
      var rest := Concat(pieces[1..]);
      assert Pieces(tokens[1..], rest, pieces[1..], false);
      FewTurns(tokens[1..], rest, pieces[1..]);
      assert Means(tokens[0], pieces[0], false);
      if tokens[0].One? || tokens[0].Plain? { assert |pieces[0]| == 1; } else { NoTurns(pieces[0]); }
      TurnsJoin(pieces[0], rest);
    }
  }

  /** `n` lines of a slash each. */
  function Ladder(n: nat): string { if n == 0 then "" else "\n/" + Ladder(n - 1) }

  lemma {:induction false} LadderTurns(n: nat)
    ensures Turns(Ladder(n)) >= n && (n > 0 ==> |Ladder(n)| > 0 && Ladder(n)[|Ladder(n)| - 1] == '/')
  {
    if n > 0 {
      LadderTurns(n - 1);
      TurnsJoin("\n/", Ladder(n - 1));
      assert Turns("\n/") == 1;
    }
  }

  /** A text for every token, and the ladder for the one at `i`. */
  function Samples(tokens: seq<Token>, i: nat, n: nat): (r: seq<string>)
    ensures |r| == |tokens|
  {
    seq(|tokens|, j requires 0 <= j < |tokens| =>
      if j == i then Ladder(n) else match tokens[j] case One => "a" case Plain(c) => [c] case _ => "")
  }

  lemma {:induction false} PieceTurns(pieces: seq<string>, i: nat)
    requires i < |pieces|
    ensures Turns(Concat(pieces)) >= Turns(pieces[i])
    decreases |pieces|
  {
    TurnsJoin(pieces[0], Concat(pieces[1..]));
    if i > 0 { PieceTurns(pieces[1..], i - 1); }
  }

  /** A filter with `**` selects a path that its expression does not match. */
  lemma LadderMissed(tokens: seq<Token>, i: nat) returns (path: string)
    requires i < |tokens| && AnyDeep(tokens[i])
    ensures Divides(tokens, path, true) && !Divides(tokens, path, false)
  {
    var n := |tokens| + 1;
    var pieces := Samples(tokens, i, n);
    path := Concat(pieces);
    LadderTurns(n);
    forall j | 0 <= j < |tokens| ensures Means(tokens[j], pieces[j], true) {
    }
    assert Pieces(tokens, path, pieces, true);
    PieceTurns(pieces, i);
    if narrow :| Pieces(tokens, path, narrow, false) { FewTurns(tokens, path, narrow); }
  }

  lemma ShallowDivides(tokens: seq<Token>, s: string)
    requires forall i :: 0 <= i < |tokens| ==> !AnyDeep(tokens[i])
    ensures Divides(tokens, s, true) ==> Divides(tokens, s, false)
  {
    if Divides(tokens, s, true) {
      var pieces :| Pieces(tokens, s, pieces, true);
      assert Pieces(tokens, s, pieces, false);
    }
  }

  lemma SelectsDivides(pattern: string, path: string)
    ensures Selects(pattern, path) <==> Divides(Tokens(pattern), path, true)
    ensures Matches(pattern, path) <==> Divides(Tokens(pattern), path, false)
  {
    var tokens := Tokens(pattern);
    OneReading(pattern, tokens);
    ExpressionMeans(tokens, path);
    hide Reads, Divides, Accepts;
    if Selects(pattern, path) {
      var ts :| Reads(pattern, ts) && Divides(ts, path, true);
      OneReading(pattern, ts);
    }
  }

  /** On every path the expression matches exactly what the filter selects, when and only when the pattern holds no `**`. */
  lemma AgreesEverywhere(pattern: string)
    ensures (forall path :: Matches(pattern, path) <==> Selects(pattern, path)) <==> !Doubles(pattern)
  {
    hide Doubles, Divides, Selects, Matches, Tokens;
    var tokens := Tokens(pattern);
    DoublesRead(pattern);
    if Doubles(pattern) {
      var i :| 0 <= i < |tokens| && AnyDeep(tokens[i]);
      var path := LadderMissed(tokens, i);
      SelectsDivides(pattern, path);
    } else {
      forall path ensures Matches(pattern, path) <==> Selects(pattern, path) {
        SelectsDivides(pattern, path);
        ShallowDivides(tokens, path);
        WithoutNewlines(tokens, path);
      }
    }
  }

  /** `**` selects every path, and its expression matches those without a newline. */
  lemma NewlineMissed(path: string)
    ensures Selects("**", path) && (Matches("**", path) <==> '\n' !in path)
  {
    var tokens := Tokens("**");
    assert tokens == [AnyText];
    SelectsDivides("**", path);
    assert Concat([path]) == path;
    assert Pieces(tokens, path, [path], true);
    assert '\n' !in path ==> Pieces(tokens, path, [path], false);
    forall pieces | Pieces(tokens, path, pieces, false) ensures '\n' !in path {
      assert pieces == [pieces[0]] && Concat(pieces) == pieces[0] + Concat([]);
    }
  }

  /** On a given path every expression matches what its filter selects, when and only when the path holds no newline. */
  lemma AgreesOn(path: string)
    ensures (forall pattern :: Matches(pattern, path) <==> Selects(pattern, path)) <==> '\n' !in path
  {
    hide Matches, Selects;
    NewlineMissed(path);
    if '\n' !in path {
      forall pattern ensures Matches(pattern, path) <==> Selects(pattern, path) { MatchesSelects(pattern, path); }
    }
  }

  // ------------------------------------------------------------------ the translation and the list

  /** What is appended for the front of `rest`, and how far the index moves. */
  lemma FrontCases(rest: string)
    requires rest != ""
    ensures "**/" <= rest ==> Front(rest) == AnyDirs && |rest| >= 3
    ensures !("**/" <= rest) && "**" <= rest ==> Front(rest) == AnyText && |rest| >= 2
    ensures !("**" <= rest) && rest[0] == '*' ==> Front(rest) == AnyName
    ensures rest[0] == '?' ==> Front(rest) == One
    ensures rest[0] != '*' && rest[0] != '?' ==> Front(rest) == Plain(rest[0])
  {
  }

  lemma Rendered(rest: string, n: nat, r: Re)
    requires rest != "" && n == |Spelling(Front(rest))| && r == Render(Front(rest))
    ensures n <= |rest| && RenderAll(Tokens(rest)) == [r] + RenderAll(Tokens(rest[n..]))
  {
  }

  lemma RenderTokens(c: char)
    ensures |Spelling(AnyDirs)| == 3 && Render(AnyDirs) == Opt(Cat(Star(Dot), Lit('/')))
    ensures |Spelling(AnyText)| == 2 && Render(AnyText) == Star(Dot)
    ensures |Spelling(AnyName)| == 1 && Render(AnyName) == Star(NotSlash)
    ensures |Spelling(One)| == 1 && Render(One) == NotSlash
    ensures |Spelling(Plain(c))| == 1 && Render(Plain(c)) == Lit(c)
  {
  }

  lemma NoTokens()
    ensures RenderAll(Tokens("")) == []
  {
  }

  /** The expression matches a newline-free path exactly when the filter selects it. */
  ghost predicate Translates(out: seq<Re>, pattern: string) {
    forall path :: '\n' !in path ==> (Accepts(Join(out), path) <==> Selects(pattern, path))
  }

  lemma RenderedTranslates(pattern: string)
    ensures Translates(RenderAll(Tokens(pattern)), pattern)
  {
    forall path | '\n' !in path
      ensures Accepts(Join(RenderAll(Tokens(pattern))), path) <==> Selects(pattern, path)
    {
      MatchesSelects(pattern, path);
    }
  }

  lemma Appended(pattern: string, out: seq<Re>, i: nat, n: nat, r: Re)
    requires i < |pattern| && RenderAll(Tokens(pattern)) == out + RenderAll(Tokens(pattern[i..]))
    requires n == |Spelling(Front(pattern[i..]))| && r == Render(Front(pattern[i..]))
    ensures i + n <= |pattern| && RenderAll(Tokens(pattern)) == out + [r] + RenderAll(Tokens(pattern[i + n..]))
  {
    hide *;
    Rendered(pattern[i..], n, r);
    assert pattern[i..][n..] == pattern[i + n..];
    assert out + ([r] + RenderAll(Tokens(pattern[i + n..]))) == out + [r] + RenderAll(Tokens(pattern[i + n..]));
  }

  method Regex(pattern: string) returns (out: seq<Re>)
    ensures out == RenderAll(Tokens(pattern)) && Translates(out, pattern)
  {
    hide *;
    RenderedTranslates(pattern);
    NoTokens();
    out := [];
    var i := 0;
    assert pattern[0..] == pattern;
    assert RenderAll(Tokens(pattern)) == out + RenderAll(Tokens(pattern[i..]));
    while i < |pattern|
      invariant 0 <= i <= |pattern|
      invariant RenderAll(Tokens(pattern)) == out + RenderAll(Tokens(pattern[i..]))
    {
      FrontCases(pattern[i..]);
      RenderTokens(pattern[i]);
      var n, r;
      if "**/" <= pattern[i..] {
        n, r := 3, Opt(Cat(Star(Dot), Lit('/')));
      } else if "**" <= pattern[i..] {
        n, r := 2, Star(Dot);
      } else if pattern[i] == '*' {
        n, r := 1, Star(NotSlash);
      } else if pattern[i] == '?' {
        n, r := 1, NotSlash;
      } else {
        n, r := 1, Lit(pattern[i]);
      }
      Appended(pattern, out, i, n, r);
      out := out + [r];
      i := i + n;
    }
    assert pattern[i..] == "" && out + [] == out;
  }

  predicate Negative(pattern: string) { pattern != "" && pattern[0] == '!' }

  function Body(pattern: string): string { if Negative(pattern) then pattern[1..] else pattern }

  /** Pattern `k` has the last word about `path`. */
  ghost predicate LastWord(path: string, pats: seq<string>, k: nat) {
    k < |pats| && Selects(Body(pats[k]), path) && forall j :: k < j < |pats| ==> !Selects(Body(pats[j]), path)
  }

  /** The documented verdict: the last pattern that selects the path is one that includes. */
  ghost predicate Included(path: string, pats: seq<string>) {
    exists k: nat :: LastWord(path, pats, k) && !Negative(pats[k])
  }

  /** A path no pattern selects is not included; a further pattern overrules the others where it selects. */
  lemma IncludedStep(path: string, pats: seq<string>, p: string)
    ensures !Included(path, [])
    ensures Included(path, pats + [p]) <==> if Selects(Body(p), path) then !Negative(p) else Included(path, pats)
  {
    hide Selects, Negative, Body;
    var all := pats + [p];
    assert all[|pats|] == p;
    if Selects(Body(p), path) {
      assert LastWord(path, all, |pats|);
      if k: nat :| LastWord(path, all, k) && !Negative(all[k]) { assert k == |pats|; }
    } else {
      forall k: nat | k < |pats| ensures LastWord(path, all, k) <==> LastWord(path, pats, k) {
        assert forall j :: 0 <= j < |pats| ==> all[j] == pats[j];
      }
      if k: nat :| LastWord(path, all, k) && !Negative(all[k]) { assert k < |pats| && LastWord(path, pats, k); }
      if k: nat :| LastWord(path, pats, k) && !Negative(pats[k]) { assert LastWord(path, all, k) && all[k] == pats[k]; }
    }
  }

  lemma Verdict(out: seq<Re>, pattern: string, path: string)
    requires Translates(out, pattern) && '\n' !in path
    ensures Accepts(Join(out), path) <==> Selects(pattern, path)
  {
  }

  method Triggers(path: string, pats: seq<string>) returns (included: bool)
    ensures '\n' !in path ==> (included <==> Included(path, pats))
  {
    hide *;
    included := false;
    var i := 0;
    IncludedStep(path, [], "");
    assert pats[..0] == [];
    while i < |pats|
      invariant 0 <= i <= |pats|
      invariant '\n' !in path ==> (included <==> Included(path, pats[..i]))
    {
      var pattern := pats[i];
      var negative := Negative(pattern);
      var out := Regex(Body(pattern));
      if '\n' !in path { Verdict(out, Body(pattern), path); }
      IncludedStep(path, pats[..i], pattern);
      assert pats[..i + 1] == pats[..i] + [pattern];
      if Accepts(Join(out), path) {
        included := !negative;
      }
      i := i + 1;
    }
    assert pats[..|pats|] == pats;
  }

  ghost predicate NothingLearned(paths: seq<string>) {
    forall p :: p in paths ==> p == ""
  }

  ghost predicate SomeIncluded(paths: seq<string>, pats: seq<string>) {
    exists p :: p in paths && p != "" && Included(p, pats)
  }

  /** Whether the heavy jobs run: nothing was learned about what changed, or some changed path is included. */
  method Gated(paths: seq<string>, pats: seq<string>) returns (run: bool)
    ensures (forall p :: p in paths ==> '\n' !in p) ==> (run <==> NothingLearned(paths) || SomeIncluded(paths, pats))
  {
    hide Included;
    var kept := false;
    var i := 0;
    while i < |paths|
      invariant 0 <= i <= |paths|
      invariant kept <==> exists j :: 0 <= j < i && paths[j] != ""
      invariant forall j :: 0 <= j < i && paths[j] != "" && '\n' !in paths[j] ==> !Included(paths[j], pats)
    {
      if paths[i] != "" {
        kept := true;
        var included := Triggers(paths[i], pats);
        if included {
          assert paths[i] in paths;
          return true;
        }
      }
      i := i + 1;
    }
    forall p | p in paths && p != "" && '\n' !in p ensures kept && !Included(p, pats) {
      var j :| 0 <= j < |paths| && paths[j] == p;
    }
    if kept {
      var j :| 0 <= j < |paths| && paths[j] != "";
      assert paths[j] in paths;
    }
    run := !kept;
  }
}
