/** `mask` of ci/check-module-cycle.py: blanking Rust comments and literals without moving anything. */
module RustMask {
  import opened Options
  import opened Text

  /** Python's `\w` and `str.isspace`, which range over all of Unicode. */
  datatype Chars = Chars(word: char -> bool, space: char -> bool)

  function Hashes(n: nat): (s: string)
    ensures |s| == n && forall i :: 0 <= i < n ==> s[i] == '#'
  {
    seq(n, i => '#')
  }

  // ------------------------------------------------------------------ what keeps offsets

  /** Same length, same newlines: every offset keeps its line. */
  ghost predicate SameShape(x: string, s: string) {
    |x| == |s| && forall i :: 0 <= i < |s| ==> (x[i] == '\n' <==> s[i] == '\n')
  }

  /** Same shape, and every character is the original one or a space. */
  ghost predicate Shadows(x: string, s: string) {
    |x| == |s| && forall i :: 0 <= i < |s| ==> x[i] == s[i] || (x[i] == ' ' && s[i] != '\n')
  }

  function Blank(s: string): (r: string)
    ensures |r| == |s| && forall i :: 0 <= i < |s| ==> r[i] == if s[i] == '\n' then '\n' else ' '
  {
    seq(|s|, i requires 0 <= i < |s| => if s[i] == '\n' then '\n' else ' ')
  }

  // ------------------------------------------------------------------ the pieces of a source

  /** A literal runs from `from`; its content is `t[body..to - |close|]` when it is closed. */
  datatype Piece =
    | Comment(from: nat, to: nat)
    | Tick(from: nat)
    | CharLit(from: nat, to: nat)
    | Literal(from: nat, body: nat, to: nat, close: string, closed: bool)

  function End(p: Piece): nat {
    match p
    case Comment(_, to) => to
    case Tick(from) => from + 1
    case CharLit(_, to) => to
    case Literal(_, _, to, _, _) => to
  }

  function LineEnd(t: string, i: nat): (r: nat)
    requires i <= |t|
    ensures i <= r <= |t|
    decreases |t| - i
  {
    if i == |t| || t[i] == '\n' then i else LineEnd(t, i + 1)
  }

  /** Just past the block comment whose body goes on at `i`, `depth` openers deep. */
  function BlockEnd(t: string, i: nat, depth: nat): (r: nat)
    requires i <= |t|
    ensures i <= r <= |t|
    decreases |t| - i
  {
    if depth == 0 || i == |t| then i
    else
      var o, c := Find(t, "/*", i), Find(t, "*/", i);
      if c.None? then |t|
      else if o.Some? && o.value < c.value then BlockEnd(t, o.value + 2, depth + 1)
      else BlockEnd(t, c.value + 2, depth - 1)
  }

  predicate Hex(c: char) {
    '0' <= c <= '9' || 'a' <= c <= 'f' || 'A' <= c <= 'F'
  }

  /** Just past the run of hexadecimal digits and underscores at `i`. */
  function HexRun(t: string, i: nat): (r: nat)
    requires i <= |t|
    ensures i <= r <= |t|
    decreases |t| - i
  {
    if i < |t| && (Hex(t[i]) || t[i] == '_') then HexRun(t, i + 1) else i
  }

  /** The end of the character literal whose quote is at `i`, if it is one. */
  function CharEnd(t: string, i: nat): (r: Option<nat>)
    requires i < |t|
    ensures r.Some? ==> i + 3 <= r.value <= |t| && t[r.value - 1] == '\''
  {
    if At(t, i + 1) == Some('\\') then
      if i + 5 < |t| && t[i + 2] == 'x' && Hex(t[i + 3]) && Hex(t[i + 4]) && t[i + 5] == '\'' then Some(i + 6)
      else if Has(t, i + 2, "u{") && HexRun(t, i + 4) > i + 4 && Has(t, HexRun(t, i + 4), "}'") then
        var k := HexRun(t, i + 4);
        assert t[k..k + 2][1] == '\'';
        Some(k + 2)
      else if i + 3 < |t| && t[i + 2] != '\n' && t[i + 3] == '\'' then Some(i + 4)
      else None
    else if i + 2 < |t| && t[i + 1] != '\'' && t[i + 1] != '\n' && t[i + 2] == '\'' then Some(i + 3)
    else None
  }

  /** Just past the quote that closes the string whose content goes on at `i`. */
  function StrEnd(t: string, i: nat): (r: Option<nat>)
    ensures r.Some? ==> i < r.value <= |t| && t[r.value - 1] == '"'
    decreases |t| - i
  {
    if i >= |t| then None
    else if t[i] == '"' then Some(i + 1)
    else if t[i] == '\\' then (if i + 1 < |t| then StrEnd(t, i + 2) else None)
    else StrEnd(t, i + 1)
  }

  /** Number of `#` at `i`. */
  function HashRun(t: string, i: nat): (n: nat)
    ensures n > 0 ==> i + n <= |t|
    decreases |t| - i
  {
    if i < |t| && t[i] == '#' then 1 + HashRun(t, i + 1) else 0
  }

  /** How many hashes open the raw string at `i`, and where its content begins. */
  function RawOpen(cs: Chars, t: string, i: nat): (r: Option<(nat, nat)>)
    requires i < |t|
    ensures r.Some? ==> i + 2 <= r.value.1 <= |t|
  {
    if i > 0 && cs.word(t[i - 1]) then None
    else
      var p := if Has(t, i, "br") || Has(t, i, "cr") then 2 else if t[i] == 'r' then 1 else 0;
      var h := HashRun(t, i + p);
      if p > 0 && At(t, i + p + h) == Some('"') then Some((h, i + p + h + 1)) else None
  }

  ghost predicate WellFormed(t: string, p: Piece) {
    && p.from < End(p) <= |t|
    && (p.Tick? ==> t[p.from] == '\'')
    && (p.CharLit? ==> p.from + 3 <= p.to && t[p.from] == '\'' && t[p.to - 1] == '\'')
    && (p.Literal? ==> p.from < p.body <= p.to && p.close != [] && forall c :: c in p.close ==> c != '\n')
    && (p.Literal? && p.closed ==> p.body + |p.close| <= p.to && t[p.to - |p.close|..p.to] == p.close)
    && (p.Literal? && !p.closed ==> p.to == |t|)
  }

  lemma FindHas(t: string, pat: string, i: nat)
    requires pat != [] && Find(t, pat, i).Some?
    ensures Has(t, Find(t, pat, i).value, pat)
    decreases |t| - i
  {
  }

  /** The string whose content begins at `body`, up to the first `close` or to the end of the source. */
  function RawLiteral(t: string, i: nat, body: nat, hashes: nat): (p: Piece)
    requires i < body <= |t|
    ensures WellFormed(t, p) && p.Literal? && p.from == i
  {
    var close := "\"" + Hashes(hashes);
    match Find(t, close, body)
    case None => Literal(i, body, |t|, close, false)
    case Some(e) =>
      FindHas(t, close, body);
      Literal(i, body, e + |close|, close, true)
  }

  function PlainLiteral(t: string, i: nat): (p: Piece)
    requires i < |t|
    ensures WellFormed(t, p) && p.Literal? && p.from == i
  {
    match StrEnd(t, i + 1)
    case None => Literal(i, i + 1, |t|, "\"", false)
    case Some(e) =>
      assert t[e - 1..e] == "\"";
      Literal(i, i + 1, e, "\"", true)
  }

  /** What begins at `i`, if the token expression matches there. */
  function PieceAt(cs: Chars, t: string, i: nat): (r: Option<Piece>)
    requires i < |t|
    ensures r.Some? ==> r.value.from == i && WellFormed(t, r.value)
  {
    if Has(t, i, "//") then Some(Comment(i, LineEnd(t, i + 2)))
    else if Has(t, i, "/*") then Some(Comment(i, BlockEnd(t, i + 2, 1)))
    else if t[i] == '\'' then
      match CharEnd(t, i) case None => Some(Tick(i)) case Some(e) => Some(CharLit(i, e))
    else if t[i] == '"' then Some(PlainLiteral(t, i))
    else
      match RawOpen(cs, t, i)
      case None => None
      case Some(open) => Some(RawLiteral(t, i, open.1, open.0))
  }

  /** The first piece at or after `pos`. */
  function NextPiece(cs: Chars, t: string, pos: nat): (r: Option<Piece>)
    requires pos <= |t|
    ensures r.Some? ==> pos <= r.value.from && WellFormed(t, r.value)
    decreases |t| - pos
  {
    if pos == |t| then None
    else if PieceAt(cs, t, pos).Some? then PieceAt(cs, t, pos)
    else NextPiece(cs, t, pos + 1)
  }

  // ------------------------------------------------------------------ the two masked texts

  /** Where a literal's content ends; for one that never closes, where the code takes it to end. */
  function ContentEnd(p: Piece): nat
    requires p.Literal?
  {
    if p.to < p.body + |p.close| then p.body else p.to - |p.close|
  }

  function RenderA(t: string, p: Piece): string
    requires WellFormed(t, p)
  {
    if p.Comment? then Blank(t[p.from..p.to]) else t[p.from..End(p)]
  }

  function RenderB(t: string, p: Piece): string
    requires WellFormed(t, p)
  {
    match p
    case Comment(from, to) => Blank(t[from..to])
    case Tick(from) => "'"
    case CharLit(from, to) => "'" + Blank(t[from + 1..to - 1]) + "'"
    case Literal(from, body, to, close, closed) => t[from..body] + Blank(t[body..ContentEnd(p)]) + close
  }

  /** Comments blanked, from `pos` on. */
  function MaskA(cs: Chars, t: string, pos: nat): string
    requires pos <= |t|
    decreases |t| - pos
  {
    match NextPiece(cs, t, pos)
    case None => t[pos..]
    case Some(p) => t[pos..p.from] + RenderA(t, p) + MaskA(cs, t, End(p))
  }

  /** Comments and the contents of literals blanked, from `pos` on. */
  function MaskB(cs: Chars, t: string, pos: nat): string
    requires pos <= |t|
    decreases |t| - pos
  {
    match NextPiece(cs, t, pos)
    case None => t[pos..]
    case Some(p) => t[pos..p.from] + RenderB(t, p) + MaskB(cs, t, End(p))
  }

  /** The literal that never closes, if the source has one. */
  function Unclosed(cs: Chars, t: string, pos: nat): (r: Option<Piece>)
    requires pos <= |t|
    ensures r.Some? ==> r.value.Literal? && !r.value.closed && pos <= r.value.from && WellFormed(t, r.value)
    decreases |t| - pos
  {
    match NextPiece(cs, t, pos)
    case None => None
    case Some(p) => if p.Literal? && !p.closed then Some(p) else Unclosed(cs, t, End(p))
  }

  /** The delimiter that is made up for an unclosed literal overwrites its last characters, and no newline. */
  predicate Fits(t: string, p: Piece)
    requires p.Literal? && p.to <= |t|
  {
    p.body + |p.close| <= p.to && '\n' !in t[p.to - |p.close|..p.to]
  }

  lemma ShadowsJoin(x1: string, s1: string, x2: string, s2: string)
    requires Shadows(x1, s1) && Shadows(x2, s2)
    ensures Shadows(x1 + x2, s1 + s2)
  {
  }

  lemma ShapeJoin(x1: string, s1: string, x2: string, s2: string)
    requires Shadows(x1, s1)
    ensures SameShape(x1 + x2, s1 + s2) <==> SameShape(x2, s2)
  {
    var x, s := x1 + x2, s1 + s2;
    if SameShape(x, s) {
      forall i | 0 <= i < |s2|
        ensures x2[i] == '\n' <==> s2[i] == '\n'
      {
        assert x[|x1| + i] == x2[i] && s[|s1| + i] == s2[i];
      }
    }
  }

  lemma Cut(t: string, a: nat, b: nat)
    requires a <= b <= |t|
    ensures t[a..] == t[a..b] + t[b..]
  {
  }

  lemma {:induction false} MaskAShadows(cs: Chars, t: string, pos: nat)
    requires pos <= |t|
    ensures Shadows(MaskA(cs, t, pos), t[pos..])
    decreases |t| - pos
  {
    match NextPiece(cs, t, pos)
    case None =>
    case Some(p) =>
      MaskAShadows(cs, t, End(p));
      Cut(t, pos, p.from);
      Cut(t, p.from, End(p));
      ShadowsJoin(RenderA(t, p), t[p.from..End(p)], MaskA(cs, t, End(p)), t[End(p)..]);
      ShadowsJoin(t[pos..p.from], t[pos..p.from], RenderA(t, p) + MaskA(cs, t, End(p)), t[p.from..]);
  }

  lemma LiteralShadows(t: string, p: Piece)
    requires WellFormed(t, p) && p.Literal? && p.closed
    ensures Shadows(RenderB(t, p), t[p.from..p.to])
  {
    var e := p.to - |p.close|;
    assert t[p.from..p.to] == t[p.from..p.body] + t[p.body..e] + t[e..p.to];
    ShadowsJoin(t[p.from..p.body], t[p.from..p.body], Blank(t[p.body..e]), t[p.body..e]);
    ShadowsJoin(t[p.from..p.body] + Blank(t[p.body..e]), t[p.from..p.body] + t[p.body..e], p.close, t[e..p.to]);
  }

  lemma CharShadows(t: string, p: Piece)
    requires WellFormed(t, p) && p.CharLit?
    ensures Shadows(RenderB(t, p), t[p.from..p.to])
  {
    assert t[p.from..p.to] == "'" + t[p.from + 1..p.to - 1] + "'";
  }

  lemma ClosedShadows(t: string, p: Piece)
    requires WellFormed(t, p) && !(p.Literal? && !p.closed)
    ensures Shadows(RenderB(t, p), t[p.from..End(p)])
  {
    match p
    case Comment(_, _) =>
    case Tick(_) =>
    case CharLit(_, _) =>
      hide *;
      CharShadows(t, p);
    case Literal(_, _, _, _, _) =>
      hide *;
      LiteralShadows(t, p);
  }

  lemma UnclosedShape(t: string, p: Piece)
    requires WellFormed(t, p) && p.Literal? && !p.closed
    ensures SameShape(RenderB(t, p), t[p.from..p.to]) <==> Fits(t, p)
  {
    var x, s := RenderB(t, p), t[p.from..p.to];
    var keep := t[p.from..p.body] + Blank(t[p.body..ContentEnd(p)]);
    if p.body + |p.close| <= p.to {
      assert s == t[p.from..ContentEnd(p)] + t[ContentEnd(p)..p.to];
      ShapeJoin(keep, t[p.from..ContentEnd(p)], p.close, t[ContentEnd(p)..p.to]);
      var last := t[ContentEnd(p)..p.to];
      if '\n' in last {
        var i :| 0 <= i < |last| && last[i] == '\n';
        assert p.close[i] in p.close;
      } else {
        forall i | 0 <= i < |last|
          ensures last[i] != '\n' && p.close[i] != '\n'
        {
          assert last[i] in last && p.close[i] in p.close;
        }
      }
    }
  }

  lemma LitEnd(p: Piece)
    ensures p.Literal? || p.CharLit? ==> End(p) == p.to
  {
  }

  lemma UnfoldB(cs: Chars, t: string, pos: nat)
    requires pos <= |t|
    ensures match NextPiece(cs, t, pos)
      case None => MaskB(cs, t, pos) == t[pos..] && Unclosed(cs, t, pos).None?
      case Some(p) =>
        && pos <= p.from < End(p) <= |t| && WellFormed(t, p)
        && MaskB(cs, t, pos) == t[pos..p.from] + (RenderB(t, p) + MaskB(cs, t, End(p)))
        && (if p.Literal? && !p.closed then Unclosed(cs, t, pos) == Some(p) && End(p) == |t| && MaskB(cs, t, End(p)) == []
            else Unclosed(cs, t, pos) == Unclosed(cs, t, End(p)))
  {
    hide PieceAt, RenderB;
  }

  lemma SameText(s: string)
    ensures Shadows(s, s) && SameShape(s, s)
  {
  }

  /** The second text keeps the source's shape exactly when an unclosed literal, if there is one, leaves room. */
  lemma {:induction false} MaskBShape(cs: Chars, t: string, pos: nat)
    requires pos <= |t|
    ensures SameShape(MaskB(cs, t, pos), t[pos..]) <==> (Unclosed(cs, t, pos).Some? ==> Fits(t, Unclosed(cs, t, pos).value))
    ensures Unclosed(cs, t, pos).None? ==> Shadows(MaskB(cs, t, pos), t[pos..])
    decreases |t| - pos
  {
    hide *;
    UnfoldB(cs, t, pos);
    SameText(t[pos..]);
    if NextPiece(cs, t, pos).Some? {
      var p := NextPiece(cs, t, pos).value;
      var plain, piece, rest := t[pos..p.from], t[p.from..End(p)], MaskB(cs, t, End(p));
      SameText(plain);
      Cut(t, pos, p.from);
      Cut(t, p.from, End(p));
      ShapeJoin(plain, plain, RenderB(t, p) + rest, t[p.from..]);
      if p.Literal? && !p.closed {
        LitEnd(p);
        UnclosedShape(t, p);
        assert t[End(p)..] == [] && RenderB(t, p) + rest == RenderB(t, p) && piece + t[End(p)..] == piece;
      } else {
        MaskBShape(cs, t, End(p));
        ClosedShadows(t, p);
        ShapeJoin(RenderB(t, p), piece, rest, t[End(p)..]);
        if Unclosed(cs, t, pos).None? {
          ShadowsJoin(RenderB(t, p), piece, rest, t[End(p)..]);
          ShadowsJoin(plain, plain, RenderB(t, p) + rest, t[p.from..]);
        }
      }
    }
  }

  lemma Associate(x: string, y: string, z: string)
    ensures (x + y) + z == x + (y + z)
  {
  }

  lemma UnfoldMask(cs: Chars, t: string, pos: nat)
    requires pos <= |t|
    ensures match NextPiece(cs, t, pos)
      case None => MaskA(cs, t, pos) == MaskB(cs, t, pos) == t[pos..]
      case Some(p) =>
        && pos <= p.from < End(p) <= |t| && WellFormed(t, p)
        && MaskA(cs, t, pos) == (t[pos..p.from] + RenderA(t, p)) + MaskA(cs, t, End(p))
        && MaskB(cs, t, pos) == (t[pos..p.from] + RenderB(t, p)) + MaskB(cs, t, End(p))
  {
    hide PieceAt, RenderA, RenderB;
  }

  lemma MaskShapes(cs: Chars, t: string)
    ensures Shadows(MaskA(cs, t, 0), t)
    ensures SameShape(MaskB(cs, t, 0), t) <==> (Unclosed(cs, t, 0).Some? ==> Fits(t, Unclosed(cs, t, 0).value))
    ensures Unclosed(cs, t, 0).None? ==> Shadows(MaskB(cs, t, 0), t)
  {
    assert t[0..] == t;
    MaskAShadows(cs, t, 0);
    MaskBShape(cs, t, 0);
    hide *;
  }

  method Mask(cs: Chars, t: string) returns (a: string, b: string)
    ensures a == MaskA(cs, t, 0) && b == MaskB(cs, t, 0)
    ensures Shadows(a, t)
    ensures SameShape(b, t) <==> (Unclosed(cs, t, 0).Some? ==> Fits(t, Unclosed(cs, t, 0).value))
    ensures Unclosed(cs, t, 0).None? ==> Shadows(b, t)
  {
    MaskShapes(cs, t);
    hide *;
    a, b := [], [];
    var pos := 0;
    while true
      invariant pos <= |t|
      invariant a + MaskA(cs, t, pos) == MaskA(cs, t, 0)
      invariant b + MaskB(cs, t, pos) == MaskB(cs, t, 0)
      decreases |t| - pos
    {
      UnfoldMask(cs, t, pos);
      var m := NextPiece(cs, t, pos);
      if m.None? {
        break;
      }
      var p := m.value;
      var plain := t[pos..p.from];
      Associate(a, plain + RenderA(t, p), MaskA(cs, t, End(p)));
      Associate(b, plain + RenderB(t, p), MaskB(cs, t, End(p)));
      a, b := a + (plain + RenderA(t, p)), b + (plain + RenderB(t, p));
      pos := End(p);
    }
    a, b := a + t[pos..], b + t[pos..];
  }

  // ------------------------------------------------------------------ character by character

  /** The piece that holds offset `i`. */
  ghost function Covering(cs: Chars, t: string, pos: nat, i: nat): (r: Option<Piece>)
    requires pos <= |t|
    ensures r.Some? ==> WellFormed(t, r.value) && r.value.from <= i < End(r.value)
    decreases |t| - pos
  {
    match NextPiece(cs, t, pos)
    case None => None
    case Some(p) => if i < p.from then None else if i < End(p) then Some(p) else Covering(cs, t, End(p), i)
  }

  /** Whether `mask` blanks offset `i` of a closed piece in its second text: comments, and literals between their quotes. */
  ghost predicate Hidden(p: Piece, i: nat) {
    match p
    case Comment(_, _) => true
    case Tick(_) => false
    case CharLit(from, to) => from < i < to - 1
    case Literal(_, body, to, close, _) => body <= i < to - |close|
  }

  ghost function Shown(t: string, hidden: bool, i: nat): char
    requires i < |t|
  {
    if hidden && t[i] != '\n' then ' ' else t[i]
  }

  lemma JoinAt(w: string, x: string, y: string, z: string, k: nat)
    requires w == x + y + z && k < |w|
    ensures w[k] == if k < |x| then x[k] else if k < |x| + |y| then y[k - |x|] else z[k - |x| - |y|]
  {
  }

  lemma LiteralAt(t: string, p: Piece, i: nat)
    requires WellFormed(t, p) && p.Literal? && p.closed && p.from <= i < p.to
    ensures |RenderB(t, p)| == p.to - p.from && RenderB(t, p)[i - p.from] == Shown(t, Hidden(p, i), i)
  {
    var e := p.to - |p.close|;
    var x, y := t[p.from..p.body], Blank(t[p.body..e]);
    assert RenderB(t, p) == x + y + p.close;
    JoinAt(RenderB(t, p), x, y, p.close, i - p.from);
    if i >= e { assert t[e..p.to][i - e] == t[i]; }
  }

  lemma CharLitAt(t: string, p: Piece, i: nat)
    requires WellFormed(t, p) && p.CharLit? && p.from <= i < p.to
    ensures |RenderB(t, p)| == p.to - p.from && RenderB(t, p)[i - p.from] == Shown(t, Hidden(p, i), i)
  {
    var y := Blank(t[p.from + 1..p.to - 1]);
    JoinAt(RenderB(t, p), "'", y, "'", i - p.from);
  }

  lemma PlainAt(t: string, p: Piece, i: nat)
    requires WellFormed(t, p) && (p.Comment? || p.Tick?) && p.from <= i < End(p)
    ensures |RenderB(t, p)| == End(p) - p.from && RenderB(t, p)[i - p.from] == Shown(t, Hidden(p, i), i)
  {
  }

  lemma RenderAAt(t: string, p: Piece, i: nat)
    requires WellFormed(t, p) && p.from <= i < End(p)
    ensures |RenderA(t, p)| == End(p) - p.from && RenderA(t, p)[i - p.from] == Shown(t, p.Comment?, i)
  {
  }

  lemma RenderAt(t: string, p: Piece, i: nat)
    requires WellFormed(t, p) && !(p.Literal? && !p.closed) && p.from <= i < End(p)
    ensures |RenderB(t, p)| == End(p) - p.from && RenderB(t, p)[i - p.from] == Shown(t, Hidden(p, i), i)
    ensures |RenderA(t, p)| == End(p) - p.from && RenderA(t, p)[i - p.from] == Shown(t, p.Comment?, i)
  {
    hide *;
    RenderAAt(t, p, i);
    LitEnd(p);
    if p.Literal? {
      LiteralAt(t, p, i);
    } else if p.CharLit? {
      CharLitAt(t, p, i);
    } else {
      PlainAt(t, p, i);
    }
  }

  lemma NotHidden(t: string, i: nat)
    requires i < |t|
    ensures Shown(t, false, i) == t[i]
  {
  }

  lemma MaskLength(cs: Chars, t: string, pos: nat)
    requires pos <= |t| && Unclosed(cs, t, pos).None?
    ensures |MaskA(cs, t, pos)| == |MaskB(cs, t, pos)| == |t| - pos
  {
    MaskAShadows(cs, t, pos);
    MaskBShape(cs, t, pos);
  }

  /** One piece of the walk, for all the functions that follow it. */
  lemma Unfold(cs: Chars, t: string, pos: nat, i: nat)
    requires pos <= i < |t| && Unclosed(cs, t, pos).None?
    ensures match NextPiece(cs, t, pos)
      case None => MaskA(cs, t, pos) == MaskB(cs, t, pos) == t[pos..] && Covering(cs, t, pos, i).None?
      case Some(p) =>
        && p.from < End(p) <= |t| && pos <= p.from && WellFormed(t, p) && !(p.Literal? && !p.closed)
        && MaskA(cs, t, pos) == t[pos..p.from] + RenderA(t, p) + MaskA(cs, t, End(p))
        && MaskB(cs, t, pos) == t[pos..p.from] + RenderB(t, p) + MaskB(cs, t, End(p))
        && Unclosed(cs, t, End(p)).None?
        && Covering(cs, t, pos, i) == (if i < p.from then None else if i < End(p) then Some(p) else Covering(cs, t, End(p), i))
  {
  }

  /** A piece passed over shifts both texts by its length. */
  lemma MaskNext(cs: Chars, t: string, pos: nat, p: Piece, i: nat)
    requires pos <= i < |t| && Unclosed(cs, t, pos).None? && NextPiece(cs, t, pos) == Some(p) && End(p) <= i
    ensures |MaskA(cs, t, pos)| == |MaskB(cs, t, pos)| == |t| - pos
    ensures |MaskA(cs, t, End(p))| == |MaskB(cs, t, End(p))| == |t| - End(p)
    ensures MaskA(cs, t, pos)[i - pos] == MaskA(cs, t, End(p))[i - End(p)]
    ensures MaskB(cs, t, pos)[i - pos] == MaskB(cs, t, End(p))[i - End(p)]
  {
    hide *;
    MaskLength(cs, t, pos);
    Unfold(cs, t, pos, i);
    MaskLength(cs, t, End(p));
    RenderAt(t, p, p.from);
    JoinAt(MaskA(cs, t, pos), t[pos..p.from], RenderA(t, p), MaskA(cs, t, End(p)), i - pos);
    JoinAt(MaskB(cs, t, pos), t[pos..p.from], RenderB(t, p), MaskB(cs, t, End(p)), i - pos);
  }

  /** Offsets up to the end of the next piece. */
  lemma MaskHere(cs: Chars, t: string, pos: nat, i: nat)
    requires pos <= i < |t| && Unclosed(cs, t, pos).None?
    requires NextPiece(cs, t, pos).Some? ==> i < End(NextPiece(cs, t, pos).value)
    ensures |MaskA(cs, t, pos)| == |MaskB(cs, t, pos)| == |t| - pos
    ensures var p := Covering(cs, t, pos, i);
      && MaskA(cs, t, pos)[i - pos] == Shown(t, p.Some? && p.value.Comment?, i)
      && MaskB(cs, t, pos)[i - pos] == Shown(t, p.Some? && Hidden(p.value, i), i)
  {
    hide *;
    MaskLength(cs, t, pos);
    NotHidden(t, i);
    Unfold(cs, t, pos, i);
    if NextPiece(cs, t, pos).Some? {
      var p := NextPiece(cs, t, pos).value;
      RenderAt(t, p, if p.from <= i then i else p.from);
      JoinAt(MaskA(cs, t, pos), t[pos..p.from], RenderA(t, p), MaskA(cs, t, End(p)), i - pos);
      JoinAt(MaskB(cs, t, pos), t[pos..p.from], RenderB(t, p), MaskB(cs, t, End(p)), i - pos);
    }
  }

  /** When every literal is closed, the first text blanks exactly the comments, the second also what literals quote. */
  lemma {:induction false} MaskedAt(cs: Chars, t: string, pos: nat, i: nat)
    requires pos <= i < |t| && Unclosed(cs, t, pos).None?
    ensures |MaskA(cs, t, pos)| == |MaskB(cs, t, pos)| == |t| - pos
    ensures var p := Covering(cs, t, pos, i);
      && MaskA(cs, t, pos)[i - pos] == Shown(t, p.Some? && p.value.Comment?, i)
      && MaskB(cs, t, pos)[i - pos] == Shown(t, p.Some? && Hidden(p.value, i), i)
    decreases |t| - pos
  {
    hide *;
    Unfold(cs, t, pos, i);
    var next := NextPiece(cs, t, pos);
    if next.Some? && End(next.value) <= i {
      MaskNext(cs, t, pos, next.value, i);
      MaskedAt(cs, t, End(next.value), i);
    } else {
      MaskHere(cs, t, pos, i);
    }
  }

  /** The promise as documented fails: a lone quote at the end of a file makes the second text longer. */
  lemma LoneQuoteGrows(cs: Chars)
    ensures MaskB(cs, "\"", 0) == "\"\"" && !SameShape(MaskB(cs, "\"", 0), "\"")
  {
    var t := "\"";
    assert PieceAt(cs, t, 0) == Some(Literal(0, 1, 1, "\"", false));
    assert NextPiece(cs, t, 1) == None;
  }
}
