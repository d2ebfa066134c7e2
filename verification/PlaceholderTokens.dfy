/** What `lex` of ci/check-placeholders.py takes for comments, strings and character literals, read off the text. */
module PlaceholderTokens {
  import opened Options
  import opened Text
  import RustMask
  import opened RustTokens
  import Lexer = PlaceholderLex

  /** A block comment comes with the places of its openers and closers. */
  datatype Piece = LineNote(from: nat, to: nat) | BlockNote(from: nat, to: nat, ms: seq<nat>) | Str(from: nat, to: nat) | Chr(from: nat, to: nat)

  /** It ends where openers and closers are equal, or with the text, in which they never are. */
  ghost predicate Block(t: string, i: nat, e: nat, ms: seq<nat>) {
    && Has(t, i, "/*") && ms != [] && ms[0] == i
    && (Closing(t, i, ms, e) || (e == |t| && StillOpen(t, i, ms) && forall p :: Behind(i, ms) <= p ==> !Mark(t, p)))
  }

  /** `r`, at most ten hashes and a quote, behind no word. */
  ghost predicate RawStarts(word: char -> bool, t: string, i: nat, h: nat) {
    h <= 10 && Has(t, i, "r" + RustMask.Hashes(h) + "\"") && (i > 0 && i <= |t| ==> !word(t[i - 1]))
  }

  /** `'c'`, `'\c'`, `'\xHH'` or `'\u{H..}'` with at most eight digits. */
  ghost predicate Char(t: string, i: nat, e: nat) {
    && i + 3 <= e <= |t| && t[i] == '\'' && t[e - 1] == '\''
    && (|| (e == i + 3 && t[i + 1] != '\\' && t[i + 1] != '\'')
        || (e == i + 4 && t[i + 1] == '\\' && t[i + 2] != '\n')
        || (e == i + 6 && t[i + 1] == '\\' && t[i + 2] == 'x' && Lexer.Hex(t[i + 3]) && Lexer.Hex(t[i + 4]))
        || (i + 6 < e <= i + 14 && t[i + 1] == '\\' && t[i + 2] == 'u' && t[i + 3] == '{' && t[e - 2] == '}'
            && forall k :: i + 4 <= k < e - 2 ==> Lexer.Hex(t[k]) || t[k] == '_'))
  }

  ghost predicate Token(word: char -> bool, t: string, p: Piece) {
    p.from < p.to && match p
    case LineNote(from, to) => LineComment(t, from, to)
    case BlockNote(from, to, ms) => Block(t, from, to, ms)
    case Str(from, to) =>
      || (At(t, from) == Some('"') && (StringTo(t, from + 1, to, true) || StringTo(t, from + 1, to, false)))
      || exists h: nat :: RawStarts(word, t, from, h) && (RawTo(t, from + h + 2, h, to, true) || RawTo(t, from + h + 2, h, to, false))
    case Chr(from, to) => Char(t, from, to)
  }

  /** A comment, a string or a character literal begins at `i`. */
  ghost predicate Begins(word: char -> bool, t: string, i: nat) {
    || Has(t, i, "//") || Has(t, i, "/*") || At(t, i) == Some('"')
    || (exists h: nat :: RawStarts(word, t, i, h)) || exists e: nat :: Char(t, i, e)
  }

  /** From `pos` on the text is these pieces in order, and nothing begins between or behind them. */
  ghost predicate Lexed(word: char -> bool, t: string, pos: nat, ps: seq<Piece>)
    decreases |ps|
  {
    if ps == [] then forall q: nat :: pos <= q ==> !Begins(word, t, q)
    else
      && pos <= ps[0].from && Token(word, t, ps[0]) && (forall q: nat :: pos <= q < ps[0].from ==> !Begins(word, t, q))
      && Lexed(word, t, ps[0].to, ps[1..])
  }

  // ------------------------------------------------------------------ what a piece shows

  predicate Marker(ms: seq<nat>, k: nat) { exists m :: m in ms && m <= k < m + 2 }

  /** In the code nothing, in the comments the text of a comment; the newlines of both, but not of a character literal. */
  ghost function InCode(p: Piece, c: char): char {
    if c == '\n' && !p.Chr? then '\n' else ' '
  }

  ghost function InNotes(p: Piece, c: char, k: nat): char {
    if p.LineNote? || (p.BlockNote? && !Marker(p.ms, k)) then c else InCode(p, c)
  }

  ghost function CodeOf(t: string, p: Piece): (r: string)
    requires p.from <= p.to <= |t|
    ensures |r| == p.to - p.from && forall k :: 0 <= k < |r| ==> r[k] == InCode(p, t[p.from + k])
  {
    seq(p.to - p.from, k requires 0 <= k < p.to - p.from => InCode(p, t[p.from + k]))
  }

  ghost function NotesOf(t: string, p: Piece): (r: string)
    requires p.from <= p.to <= |t|
    ensures |r| == p.to - p.from && forall k :: 0 <= k < |r| ==> r[k] == InNotes(p, t[p.from + k], p.from + k)
  {
    seq(p.to - p.from, k requires 0 <= k < p.to - p.from => InNotes(p, t[p.from + k], p.from + k))
  }

  /** Both outputs show that of the piece, and go on behind it outside of any piece. */
  ghost predicate Shows(word: char -> bool, t: string, p: Piece) {
    && p.from <= p.to <= |t|
    && var (a, b), (x, y) := Lexer.LexFrom(word, t, p.from, 0), Lexer.LexFrom(word, t, p.to, 0);
       a == CodeOf(t, p) + x && b == NotesOf(t, p) + y
  }

  // ------------------------------------------------------------------ line comments and literals

  lemma OneStep(word: char -> bool, t: string, p: Piece, kind: Lexer.Kind)
    requires p.from < p.to <= |t| && Lexer.Next(word, t, p.from, 0) == Lexer.Step(p.to - p.from, kind, 0)
    requires Lexer.ShowCode(kind, t[p.from..p.to]) == CodeOf(t, p) && Lexer.ShowNote(kind, t[p.from..p.to]) == NotesOf(t, p)
    ensures Shows(word, t, p)
  {
    hide *;
    Lexer.LexUnfold(word, t, p.from, 0);
    ShowsIs(word, t, p);
  }

  lemma ShowsIs(word: char -> bool, t: string, p: Piece)
    requires p.from <= p.to <= |t|
    ensures Shows(word, t, p) <==>
      var (a, b), (x, y) := Lexer.LexFrom(word, t, p.from, 0), Lexer.LexFrom(word, t, p.to, 0);
      a == CodeOf(t, p) + x && b == NotesOf(t, p) + y
  {
    hide CodeOf, NotesOf, Lexer.LexFrom;
  }

  lemma PieceTexts(t: string, p: Piece)
    requires p.from <= p.to <= |t|
    ensures p.LineNote? ==> CodeOf(t, p) == RustMask.Blank(t[p.from..p.to]) && NotesOf(t, p) == t[p.from..p.to]
    ensures p.Str? ==> CodeOf(t, p) == NotesOf(t, p) == RustMask.Blank(t[p.from..p.to])
    ensures p.Chr? ==> CodeOf(t, p) == NotesOf(t, p) == Lexer.Spaces(p.to - p.from)
  {
    hide CodeOf, NotesOf, RustMask.Blank, Lexer.Spaces;
  }

  lemma LineNoteShows(word: char -> bool, t: string, p: Piece)
    requires p.LineNote? && LineComment(t, p.from, p.to)
    ensures Shows(word, t, p)
  {
    NewlineFound(t, p.from + 2, p.to);
    PieceTexts(t, p);
    assert t[p.from] == t[p.from..p.from + 2][0] && t[p.from + 1] == t[p.from..p.from + 2][1];
    assert Lexer.Next(word, t, p.from, 0) == Lexer.Step(p.to - p.from, Lexer.Note, 0);
    hide Lexer.Next, Lexer.LexFrom, CodeOf, NotesOf, LineComment;
    OneStep(word, t, p, Lexer.Note);
  }

  lemma NewlineFound(t: string, i: nat, e: nat)
    requires i <= e <= |t| && (forall k :: i <= k < e ==> t[k] != '\n') && (e < |t| ==> t[e] == '\n')
    ensures Lexer.Until(t, "\n", i) == e
  {
    NoneBefore(t, "\n", i);
    forall k: nat ensures Has(t, k, "\n") <==> k < |t| && t[k] == '\n' { OneChar(t, k, '\n'); }
    if e < |t| { FirstOf(t, "\n", i, e); }
    hide Find, Has;
  }

  lemma {:induction false} SameRun(t: string, i: nat)
    ensures Lexer.HashRun(t, i) == RustMask.HashRun(t, i)
    decreases |t| - i
  {
    if i < |t| && t[i] == '#' { SameRun(t, i + 1); }
  }

  lemma RawHashesIs(word: char -> bool, t: string, i: nat, h: nat)
    requires i < |t|
    ensures Lexer.RawHashes(word, t, i) == Some(h) <==> RawStarts(word, t, i, h)
  {
    HashesThenQuote(t, i, "r", h);
    OneChar(t, i, 'r');
    SameRun(t, i + 1);
    hide Has, RustMask.Hashes, RustMask.HashRun, Lexer.HashRun;
  }

  /** From a place that is not escaped on, the search ends where the string does. */
  lemma {:induction false} StringEndIs(t: string, lo: nat, j: nat, e: nat, closed: bool)
    requires lo <= j && (j <= |t| ==> Slashes(t, lo, j) % 2 == 0)
    requires if closed then j < e && Quote(t, lo, e - 1) && forall k :: j <= k < e - 1 ==> !Quote(t, lo, k)
             else e == |t| && forall k :: j <= k ==> !Quote(t, lo, k)
    ensures Lexer.StringEnd(t, j) == e
    decreases |t| - j
  {
    assert j < |t| && t[j] == '"' ==> Quote(t, lo, j);
    if j < |t| && t[j] != '"' {
      if t[j] == '\\' {
        if j + 1 < |t| {
          assert Slashes(t, lo, j + 1) == Slashes(t, lo, j) + 1;
          StringEndIs(t, lo, j + 2, e, closed);
        }
      } else {
        StringEndIs(t, lo, j + 1, e, closed);
      }
    }
  }

  lemma StrShows(word: char -> bool, t: string, p: Piece, closed: bool)
    requires p.Str? && p.from < p.to <= |t| && t[p.from] == '"' && StringTo(t, p.from + 1, p.to, closed)
    ensures Shows(word, t, p)
  {
    StringEndIs(t, p.from + 1, p.from + 1, p.to, closed);
    NoStart(t, p.from);
    PieceTexts(t, p);
    assert Lexer.RawHashes(word, t, p.from).None?;
    assert Lexer.Next(word, t, p.from, 0) == Lexer.Step(p.to - p.from, Lexer.Blanked, 0);
    hide Lexer.Next, Lexer.LexFrom, CodeOf, NotesOf, StringTo;
    OneStep(word, t, p, Lexer.Blanked);
  }

  lemma NoStart(t: string, i: nat)
    ensures i < |t| && t[i] != '/' ==> !Has(t, i, "//") && !Has(t, i, "/*")
  {
    TwoChars(t, i, '/', '/');
    TwoChars(t, i, '/', '*');
  }

  lemma RawShows(word: char -> bool, t: string, p: Piece, h: nat, closed: bool)
    requires p.Str? && p.from < p.to <= |t| && RawStarts(word, t, p.from, h) && RawTo(t, p.from + h + 2, h, p.to, closed)
    ensures Shows(word, t, p)
  {
    RawHashesIs(word, t, p.from, h);
    HashesThenQuote(t, p.from, "r", h);
    OneChar(t, p.from, 'r');
    NoStart(t, p.from);
    RawEndIs(t, p.from, h, p.to, closed);
    PieceTexts(t, p);
    hide Has, Lexer.RawHashes, Lexer.RawEnd, Lexer.LexFrom, CodeOf, NotesOf, RawTo, RawStarts, RustMask.Hashes;
    assert Lexer.Next(word, t, p.from, 0) == Lexer.Step(p.to - p.from, Lexer.Blanked, 0);
    hide Lexer.Next;
    OneStep(word, t, p, Lexer.Blanked);
  }

  lemma RawEndIs(t: string, i: nat, h: nat, e: nat, closed: bool)
    requires i + 2 + h <= |t| && RawTo(t, i + h + 2, h, e, closed)
    ensures Lexer.RawEnd(t, i, h) == e
  {
    var close := "\"" + RustMask.Hashes(h);
    NoneBefore(t, close, i + 2 + h);
    if closed { FirstOf(t, close, i + 2 + h, e - |close|); }
    hide Find, Has, RustMask.Hashes;
  }

  lemma {:induction false} HexRunIs2(t: string, i: nat, e: nat)
    requires i <= e < |t| && (forall k :: i <= k < e ==> Lexer.Hex(t[k]) || t[k] == '_') && !Lexer.Hex(t[e]) && t[e] != '_'
    ensures Lexer.HexRun(t, i) == e - i
    decreases e - i
  {
    if i < e { HexRunIs2(t, i + 1, e); }
  }

  lemma {:induction false} HexRunAll(t: string, i: nat, k: nat)
    requires i <= k < i + Lexer.HexRun(t, i)
    ensures k < |t| && (Lexer.Hex(t[k]) || t[k] == '_')
    decreases |t| - i
  {
    if i < k { HexRunAll(t, i + 1, k); }
  }

  lemma CharLitIs(t: string, i: nat, e: nat)
    requires i < |t| && t[i] == '\''
    ensures Lexer.CharLit(t, i) == Some(e - i) && i <= e <==> Char(t, i, e)
  {
    forall k | i + 4 <= k < i + 4 + Lexer.HexRun(t, i + 4) ensures k < |t| && (Lexer.Hex(t[k]) || t[k] == '_') {
      HexRunAll(t, i + 4, k);
    }
    if Char(t, i, e) && i + 6 < e && t[i + 2] == 'u' { HexRunIs2(t, i + 4, e - 2); }
    hide Lexer.HexRun;
  }

  lemma ChrShows(word: char -> bool, t: string, p: Piece)
    requires p.Chr? && Char(t, p.from, p.to)
    ensures Shows(word, t, p)
  {
    CharLitIs(t, p.from, p.to);
    NoStart(t, p.from);
    PieceTexts(t, p);
    assert Lexer.RawHashes(word, t, p.from).None?;
    hide Has, Lexer.RawHashes, Lexer.CharLit, Lexer.LexFrom, CodeOf, NotesOf, Lexer.Spaces, Char;
    assert Lexer.Next(word, t, p.from, 0) == Lexer.Step(p.to - p.from, Lexer.Gone, 0);
    hide Lexer.Next;
    OneStep(word, t, p, Lexer.Gone);
  }

  // ------------------------------------------------------------------ block comments

  /** What the rest of a block comment shows, from `j` on. */
  ghost predicate Rest(word: char -> bool, t: string, p: Piece, j: nat, block: nat) {
    && p.from <= j <= p.to <= |t|
    && var (a, b), (x, y) := Lexer.LexFrom(word, t, j, block), Lexer.LexFrom(word, t, p.to, 0);
       a == CodeOf(t, p)[j - p.from..] + x && b == NotesOf(t, p)[j - p.from..] + y
  }

  /** The first `n` marks of the comment are behind `j`, and no further one begins before it. */
  ghost predicate Inside(t: string, p: Piece, n: nat, j: nat, block: nat)
    requires p.BlockNote?
  {
    && 0 < n <= |p.ms| && Behind(p.from, p.ms[..n]) <= j <= p.to <= |t|
    && (forall q :: Behind(p.from, p.ms[..n]) <= q < j ==> !Mark(t, q)) && Surplus(t, p.ms[..n]) == block
  }

  lemma {:induction false} Ascend(t: string, i: nat, ms: seq<nat>, n: nat)
    requires Marks(t, i, ms) && n <= |ms|
    ensures Behind(i, ms[..n]) <= Behind(i, ms) && forall k :: n <= k < |ms| ==> Behind(i, ms[..n]) <= ms[k]
    ensures forall k :: 0 <= k < n ==> ms[k] + 2 <= Behind(i, ms[..n])
    decreases |ms|
  {
    assert ms[..|ms|] == ms;
    if n < |ms| {
      var rest := ms[..|ms| - 1];
      Ascend(t, i, rest, n);
      assert rest[..n] == ms[..n];
    } else if ms != [] {
      var rest := ms[..|ms| - 1];
      Ascend(t, i, rest, |rest|);
      assert rest[..|rest|] == rest;
    }
  }

  /** The next mark of the comment. */
  lemma NextOf(t: string, i: nat, ms: seq<nat>, n: nat)
    requires Marks(t, i, ms) && n < |ms|
    ensures Behind(i, ms[..n]) <= ms[n] && Mark(t, ms[n]) && forall q :: Behind(i, ms[..n]) <= q < ms[n] ==> !Mark(t, q)
    ensures Behind(i, ms[..n + 1]) == ms[n] + 2
    ensures Surplus(t, ms[..n + 1]) == Surplus(t, ms[..n]) + (if Has(t, ms[n], "/*") then 1 else -1)
  {
    MarksPrefix(t, i, ms, n + 1);
    var more := ms[..n + 1];
    assert more[|more| - 1] == ms[n] && more[..|more| - 1] == ms[..n];
  }

  /** Inside the comment there are more openers than closers. */
  lemma {:induction false} Positive(t: string, p: Piece, n: nat)
    requires p.BlockNote? && Block(t, p.from, p.to, p.ms) && 0 < n <= |p.ms| && (Closing(t, p.from, p.ms, p.to) ==> n < |p.ms|)
    ensures Surplus(t, p.ms[..n]) > 0
    decreases n
  {
    var ms := p.ms;
    assert Marks(t, p.from, ms);
    assert ms[..0] == [];
    if n > 1 { Positive(t, p, n - 1); }
    NextOf(t, p.from, ms, n - 1);
    if Closing(t, p.from, ms, p.to) { assert Surplus(t, ms[..n]) != 0; }
    hide Closing, Marks, Surplus;
  }

  lemma RestIs(word: char -> bool, t: string, p: Piece, j: nat, block: nat)
    requires p.from <= j <= p.to <= |t|
    ensures Rest(word, t, p, j, block) <==>
      var (a, b), (x, y) := Lexer.LexFrom(word, t, j, block), Lexer.LexFrom(word, t, p.to, 0);
      a == CodeOf(t, p)[j - p.from..] + x && b == NotesOf(t, p)[j - p.from..] + y
  {
    hide CodeOf, NotesOf, Lexer.LexFrom;
  }

  lemma Glue(w: string, piece: string, rest: string, all: string, k: nat, n: nat, x: string)
    requires k + n <= |all| && w == piece + rest && rest == all[k + n..] + x && all[k..] == piece + all[k + n..]
    ensures w == all[k..] + x
  {
  }

  /** A step inside the comment that shows what the piece should. */
  lemma BlockStep(word: char -> bool, t: string, p: Piece, j: nat, block: nat, s: Lexer.Step)
    requires j < |t| && Lexer.Next(word, t, j, block) == s && p.from <= j && j + s.len <= p.to <= |t|
    requires CodeOf(t, p)[j - p.from..] == Lexer.ShowCode(s.kind, t[j..j + s.len]) + CodeOf(t, p)[j + s.len - p.from..]
    requires NotesOf(t, p)[j - p.from..] == Lexer.ShowNote(s.kind, t[j..j + s.len]) + NotesOf(t, p)[j + s.len - p.from..]
    requires Rest(word, t, p, j + s.len, s.block)
    ensures Rest(word, t, p, j, block)
  {
    hide *;
    Lexer.LexUnfold(word, t, j, block);
    RestIs(word, t, p, j, block);
    RestIs(word, t, p, j + s.len, s.block);
    var now, next, end := Lexer.LexFrom(word, t, j, block), Lexer.LexFrom(word, t, j + s.len, s.block), Lexer.LexFrom(word, t, p.to, 0);
    Glue(now.0, Lexer.ShowCode(s.kind, t[j..j + s.len]), next.0, CodeOf(t, p), j - p.from, s.len, end.0);
    Glue(now.1, Lexer.ShowNote(s.kind, t[j..j + s.len]), next.1, NotesOf(t, p), j - p.from, s.len, end.1);
  }

  lemma NoteTexts(t: string, p: Piece, j: nat)
    requires p.BlockNote? && p.from <= j < p.to <= |t| && !Marker(p.ms, j)
    ensures var k := j - p.from;
      && CodeOf(t, p)[k..] == RustMask.Blank(t[j..j + 1]) + CodeOf(t, p)[k + 1..]
      && NotesOf(t, p)[k..] == t[j..j + 1] + NotesOf(t, p)[k + 1..]
  {
    hide CodeOf, NotesOf, Marker;
  }

  lemma MarkTexts(t: string, p: Piece, j: nat)
    requires p.BlockNote? && p.from <= j && j + 2 <= p.to <= |t| && Mark(t, j) && j in p.ms
    ensures var k := j - p.from;
      && CodeOf(t, p)[k..] == Lexer.Spaces(2) + CodeOf(t, p)[k + 2..]
      && NotesOf(t, p)[k..] == Lexer.Spaces(2) + NotesOf(t, p)[k + 2..]
  {
    TwoChars(t, j, '/', '*');
    TwoChars(t, j, '*', '/');
    MarkerAt(p.ms, j);
    hide CodeOf, NotesOf, Marker, Has, Lexer.Spaces;
  }

  lemma NoteStep(word: char -> bool, t: string, p: Piece, j: nat, block: nat)
    requires p.BlockNote? && p.from <= j < p.to <= |t| && block > 0 && !Mark(t, j) && !Marker(p.ms, j) && Rest(word, t, p, j + 1, block)
    ensures Rest(word, t, p, j, block)
  {
    NoteTexts(t, p, j);
    assert Lexer.Next(word, t, j, block) == Lexer.Step(1, Lexer.Note, block);
    hide Lexer.Next, CodeOf, NotesOf, Rest;
    BlockStep(word, t, p, j, block, Lexer.Step(1, Lexer.Note, block));
  }

  /** The depth behind a mark. */
  ghost predicate Turns(t: string, j: nat, block: nat, next: nat) {
    Mark(t, j) && if Has(t, j, "/*") then next == block + 1 else next + 1 == block
  }

  lemma MarkNextStep(word: char -> bool, t: string, j: nat, block: nat, next: nat)
    requires j < |t| && block > 0 && Turns(t, j, block, next)
    ensures Lexer.Next(word, t, j, block) == Lexer.Step(2, Lexer.Gone, next)
  {
    hide Has, Lexer.RawHashes, Lexer.CharLit, Lexer.StringEnd, Lexer.RawEnd, Lexer.Until;
  }

  lemma MarkStep(word: char -> bool, t: string, p: Piece, j: nat, block: nat, next: nat)
    requires p.BlockNote? && p.from <= j && j + 2 <= p.to <= |t| && block > 0 && j in p.ms && Turns(t, j, block, next)
    requires Mark(t, j) && Rest(word, t, p, j + 2, next)
    ensures Rest(word, t, p, j, block)
  {
    hide *;
    MarkTexts(t, p, j);
    TwoLong(t, j);
    MarkNextStep(word, t, j, block, next);
    GoneTexts(t[j..j + 2]);
    BlockStep(word, t, p, j, block, Lexer.Step(2, Lexer.Gone, next));
  }

  lemma GoneTexts(piece: string)
    ensures Lexer.ShowCode(Lexer.Gone, piece) == Lexer.ShowNote(Lexer.Gone, piece) == Lexer.Spaces(|piece|)
  {
  }

  lemma TwoLong(t: string, j: nat)
    requires j + 2 <= |t|
    ensures |t[j..j + 2]| == 2
  {
  }

  lemma MarkerAt(ms: seq<nat>, j: nat)
    requires j in ms
    ensures Marker(ms, j) && Marker(ms, j + 1)
  {
  }

  lemma NotMarker(t: string, p: Piece, n: nat, j: nat)
    requires p.BlockNote? && Marks(t, p.from, p.ms) && n <= |p.ms| && Behind(p.from, p.ms[..n]) <= j && (n < |p.ms| ==> j < p.ms[n])
    ensures !Marker(p.ms, j)
  {
    Ascend(t, p.from, p.ms, n);
    if n < |p.ms| { NextOf(t, p.from, p.ms, n); Ascend(t, p.from, p.ms, n + 1); }
    hide Marks, Behind;
  }

  lemma AtEnd(word: char -> bool, t: string, p: Piece, block: nat)
    requires p.BlockNote? && p.from <= p.to <= |t| && (block == 0 || p.to == |t|)
    ensures Rest(word, t, p, p.to, block)
  {
    hide CodeOf, NotesOf, Lexer.Next;
    assert CodeOf(t, p)[p.to - p.from..] == "" && NotesOf(t, p)[p.to - p.from..] == "";
  }

  lemma BlockFits(t: string, p: Piece)
    requires p.BlockNote? && Block(t, p.from, p.to, p.ms)
    ensures Marks(t, p.from, p.ms) && Behind(p.from, p.ms) <= p.to <= |t|
    ensures Closing(t, p.from, p.ms, p.to) ==> Behind(p.from, p.ms) == p.to && Surplus(t, p.ms) == 0
    ensures !Closing(t, p.from, p.ms, p.to) ==> p.to == |t| && forall q :: Behind(p.from, p.ms) <= q ==> !Mark(t, q)
  {
    var last := p.ms[|p.ms| - 1];
    assert Mark(t, last);
  }

  lemma MoreNote(t: string, p: Piece, n: nat, j: nat, block: nat)
    requires p.BlockNote? && Inside(t, p, n, j, block) && !Mark(t, j) && j < p.to
    ensures Inside(t, p, n, j + 1, block)
  {
    hide Mark, Surplus, Behind;
  }

  lemma MoreMark(t: string, p: Piece, n: nat, j: nat, block: nat) returns (next: nat)
    requires p.BlockNote? && Block(t, p.from, p.to, p.ms) && Inside(t, p, n, j, block) && n < |p.ms| && j == p.ms[n] && block > 0
    ensures j + 2 <= p.to && Mark(t, j) && Turns(t, j, block, next) && Inside(t, p, n + 1, j + 2, next)
  {
    BlockFits(t, p);
    NextOf(t, p.from, p.ms, n);
    Ascend(t, p.from, p.ms, n + 1);
    hide Block, Closing, Marks, Surplus, Mark, Has, Behind;
    next := Surplus(t, p.ms[..n + 1]);
  }

  lemma NotPast(t: string, p: Piece, n: nat, j: nat, block: nat)
    requires p.BlockNote? && Inside(t, p, n, j, block) && n < |p.ms| && Mark(t, p.ms[n]) && Behind(p.from, p.ms[..n]) <= p.ms[n]
    ensures j <= p.ms[n]
  {
    hide Mark, Surplus, Behind;
  }

  lemma NotYet(t: string, p: Piece, n: nat, j: nat, block: nat)
    requires p.BlockNote? && Block(t, p.from, p.to, p.ms) && Inside(t, p, n, j, block) && j < p.to
    requires if n < |p.ms| then j != p.ms[n] else !Closing(t, p.from, p.ms, p.to)
    ensures !Mark(t, j) && !Marker(p.ms, j)
  {
    BlockFits(t, p);
    assert p.ms[..|p.ms|] == p.ms;
    if n < |p.ms| {
      NextOf(t, p.from, p.ms, n);
      NotPast(t, p, n, j, block);
    }
    NotMarker(t, p, n, j);
    hide Block, Closing, Marks, Surplus, Mark, Behind, Marker;
  }

  lemma Unclosed(t: string, p: Piece, n: nat, j: nat, block: nat)
    requires p.BlockNote? && Block(t, p.from, p.to, p.ms) && Inside(t, p, n, j, block)
    ensures n == |p.ms| && Closing(t, p.from, p.ms, p.to) ==> j == p.to && block == 0
    ensures j == p.to && !(n == |p.ms| && Closing(t, p.from, p.ms, p.to)) ==> p.to == |t|
    ensures !(n == |p.ms| && Closing(t, p.from, p.ms, p.to)) ==> block > 0
    ensures p.from <= j && (n < |p.ms| ==> p.ms[n] < p.to)
  {
    BlockFits(t, p);
    assert p.ms[..|p.ms|] == p.ms;
    Ascend(t, p.from, p.ms, n);
    Ascend(t, p.from, p.ms, 1);
    NextOf(t, p.from, p.ms, 0);
    if n < |p.ms| { NextOf(t, p.from, p.ms, n); Ascend(t, p.from, p.ms, n + 1); }
    if !(n == |p.ms| && Closing(t, p.from, p.ms, p.to)) { Positive(t, p, n); }
    if n < |p.ms| && j == p.to { NotPast(t, p, n, j, block); }
    hide Block, Closing, Marks, Surplus, Mark, Has;
  }

  /** Where a place inside the comment is: at its end, at a mark, or at another character. */
  datatype Place = AtEndOf | AtMark | AtText

  lemma Locate(t: string, p: Piece, n: nat, j: nat, block: nat) returns (place: Place)
    requires p.BlockNote? && Block(t, p.from, p.to, p.ms) && Inside(t, p, n, j, block)
    ensures p.from <= j <= p.to <= |t| && 0 < n <= |p.ms|
    ensures place.AtEndOf? ==> j == p.to && (block == 0 || p.to == |t|)
    ensures place.AtMark? ==> n < |p.ms| && j == p.ms[n] && block > 0 && j < |t|
    ensures place.AtText? ==> j < p.to && block > 0 && !Mark(t, j) && !Marker(p.ms, j)
  {
    Fits(t, p, n, j, block);
    Unclosed(t, p, n, j, block);
    hide Inside, Block, Closing, Mark, Marker;
    if j == p.to {
      place := AtEndOf;
    } else if n < |p.ms| && j == p.ms[n] {
      place := AtMark;
    } else {
      NotYet(t, p, n, j, block);
      place := AtText;
    }
  }

  /** Inside a comment both outputs show what they should, up to its end. */
  lemma {:induction false} BlockRun(word: char -> bool, t: string, p: Piece, n: nat, j: nat, block: nat)
    requires p.BlockNote? && Block(t, p.from, p.to, p.ms) && Inside(t, p, n, j, block)
    ensures Rest(word, t, p, j, block)
    decreases |t| - j
  {
    hide *;
    var place := Locate(t, p, n, j, block);
    match place
    case AtEndOf => AtEnd(word, t, p, block);
    case AtMark =>
      var next := MoreMark(t, p, n, j, block);
      MarkIn(p.ms, n);
      BlockRun(word, t, p, n + 1, j + 2, next);
      MarkStep(word, t, p, j, block, next);
    case AtText =>
      MoreNote(t, p, n, j, block);
      BlockRun(word, t, p, n, j + 1, block);
      NoteStep(word, t, p, j, block);
  }

  lemma MarkIn(ms: seq<nat>, n: nat)
    requires n < |ms|
    ensures ms[n] in ms
  {
  }

  lemma Fits(t: string, p: Piece, n: nat, j: nat, block: nat)
    requires p.BlockNote? && Inside(t, p, n, j, block)
    ensures 0 < n <= |p.ms| && j <= p.to <= |t|
  {
  }

  lemma BlockShows(word: char -> bool, t: string, p: Piece)
    requires p.BlockNote? && p.from < p.to && Block(t, p.from, p.to, p.ms)
    ensures Shows(word, t, p)
  {
    BlockFits(t, p);
    NextOf(t, p.from, p.ms, 0);
    Ascend(t, p.from, p.ms, 1);
    assert p.ms[..0] == [];
    BlockRun(word, t, p, 1, p.from + 2, 1);
    Opening(word, t, p);
    hide *;
  }

  lemma OpenStep(word: char -> bool, t: string, i: nat)
    requires i < |t| && Has(t, i, "/*")
    ensures Lexer.Next(word, t, i, 0) == Lexer.Step(2, Lexer.Gone, 1) && Mark(t, i) && i + 2 <= |t|
  {
    TwoChars(t, i, '/', '*');
    TwoChars(t, i, '/', '/');
    hide Has, Lexer.RawHashes, Lexer.CharLit, Lexer.StringEnd, Lexer.RawEnd, Lexer.Until;
  }

  lemma Opening(word: char -> bool, t: string, p: Piece)
    requires p.BlockNote? && p.from < |t| && Has(t, p.from, "/*") && p.from in p.ms && Rest(word, t, p, p.from + 2, 1)
    ensures Shows(word, t, p)
  {
    hide *;
    RestFits(word, t, p, p.from + 2, 1);
    OpenStep(word, t, p.from);
    MarkTexts(t, p, p.from);
    TwoLong(t, p.from);
    GoneTexts(t[p.from..p.from + 2]);
    BlockStep(word, t, p, p.from, 0, Lexer.Step(2, Lexer.Gone, 1));
    RestShows(word, t, p);
  }

  lemma RestFits(word: char -> bool, t: string, p: Piece, j: nat, block: nat)
    ensures Rest(word, t, p, j, block) ==> p.from <= j <= p.to <= |t|
  {
  }

  lemma RestShows(word: char -> bool, t: string, p: Piece)
    requires p.from <= p.to <= |t|
    ensures Rest(word, t, p, p.from, 0) <==> Shows(word, t, p)
  {
    hide *;
    ShowsIs(word, t, p);
    RestIs(word, t, p, p.from, 0);
    assert CodeOf(t, p)[0..] == CodeOf(t, p) && NotesOf(t, p)[0..] == NotesOf(t, p);
  }

  // ------------------------------------------------------------------ the whole source

  lemma TokenShows(word: char -> bool, t: string, p: Piece)
    requires Token(word, t, p)
    ensures Shows(word, t, p)
  {
    hide Shows, Lexed;
    match p
    case LineNote(from, to) => LineNoteShows(word, t, p);
    case BlockNote(from, to, ms) => BlockShows(word, t, p);
    case Chr(from, to) => ChrShows(word, t, p);
    case Str(from, to) =>
      if At(t, from) == Some('"') && (StringTo(t, from + 1, to, true) || StringTo(t, from + 1, to, false)) {
        var closed := StringTo(t, from + 1, to, true);
        StrShows(word, t, p, closed);
      } else {
        var h: nat :| RawStarts(word, t, from, h) && (RawTo(t, from + h + 2, h, to, true) || RawTo(t, from + h + 2, h, to, false));
        HashesThenQuote(t, from, "r", h);
        RawShows(word, t, p, h, RawTo(t, from + h + 2, h, to, true));
      }
  }

  /** Where nothing begins the code shows the character. */
  lemma PlainStep(word: char -> bool, t: string, q: nat)
    requires q < |t| && !Begins(word, t, q)
    ensures Lexer.Next(word, t, q, 0) == Lexer.Step(1, Lexer.Code, 0)
  {
    if Lexer.RawHashes(word, t, q).Some? { RawHashesIs(word, t, q, Lexer.RawHashes(word, t, q).value); }
    if t[q] == '\'' && Lexer.CharLit(t, q).Some? { CharLitIs(t, q, q + Lexer.CharLit(t, q).value); }
    hide Has, Lexer.RawHashes, Lexer.CharLit, Lexer.StringEnd, Lexer.RawEnd, Lexer.Until, RawStarts, Char;
  }

  /** Offset `k` is in a piece. */
  ghost predicate Held(ps: seq<Piece>, k: nat) {
    exists p :: p in ps && p.from <= k < p.to
  }

  /** What the two outputs show at `k`, by the pieces. */
  ghost predicate ShownAt(t: string, ps: seq<Piece>, k: nat, code: char, note: char)
    requires k < |t|
  {
    && (forall p :: p in ps && p.from <= k < p.to ==> code == InCode(p, t[k]) && note == InNotes(p, t[k], k))
    && (!Held(ps, k) ==> code == t[k] && note == if t[k] == '\n' then '\n' else ' ')
  }

  lemma {:induction false} Behind0(word: char -> bool, t: string, pos: nat, ps: seq<Piece>, p: Piece)
    requires Lexed(word, t, pos, ps) && p in ps
    ensures pos <= p.from < p.to
    decreases |ps|
  {
    hide Token, Begins;
    if p != ps[0] {
      assert p in ps[1..];
      Behind0(word, t, ps[0].to, ps[1..], p);
    }
    assert ps[0].from < ps[0].to by { TokenLong(word, t, ps[0]); }
  }

  lemma TokenLong(word: char -> bool, t: string, p: Piece)
    ensures Token(word, t, p) ==> p.from < p.to
  {
  }

  lemma PlainFront(word: char -> bool, t: string, q: nat)
    requires q < |t| && !Begins(word, t, q)
    ensures var (a, b), (x, y) := Lexer.LexFrom(word, t, q, 0), Lexer.LexFrom(word, t, q + 1, 0);
      a == [t[q]] + x && b == [if t[q] == '\n' then '\n' else ' '] + y
  {
    PlainStep(word, t, q);
    Lexer.LexUnfold(word, t, q, 0);
    hide Lexer.LexFrom, Lexer.Next, Begins;
    assert t[q..q + 1] == [t[q]];
    assert RustMask.Blank([t[q]]) == [if t[q] == '\n' then '\n' else ' '];
  }

  lemma PlainShown(word: char -> bool, t: string, pos: nat, ps: seq<Piece>)
    requires pos < |t| && Lexed(word, t, pos, ps) && (ps != [] ==> pos < ps[0].from)
    ensures Lexed(word, t, pos + 1, ps) && !Begins(word, t, pos)
    ensures ShownAt(t, ps, pos, t[pos], if t[pos] == '\n' then '\n' else ' ')
  {
    forall p | p in ps ensures pos < p.from {
      if p != ps[0] { Behind0(word, t, ps[0].to, ps[1..], p); TokenLong(word, t, ps[0]); }
    }
    hide Begins, Token, InNotes, InCode;
  }

  /** In the first piece only that one counts. */
  lemma FirstShown(word: char -> bool, t: string, pos: nat, ps: seq<Piece>, k: nat)
    requires Lexed(word, t, pos, ps) && ps != [] && ps[0].from <= k < ps[0].to && k < |t|
    ensures ShownAt(t, ps, k, InCode(ps[0], t[k]), InNotes(ps[0], t[k], k))
  {
    forall p | p in ps && p.from <= k < p.to ensures p == ps[0] {
      if p != ps[0] { assert p in ps[1..]; Behind0(word, t, ps[0].to, ps[1..], p); }
    }
    assert Held(ps, k);
    hide Begins, Token, InNotes, InCode;
  }

  lemma LaterShown(t: string, ps: seq<Piece>, k: nat, code: char, note: char)
    requires ps != [] && ps[0].to <= k < |t| && ShownAt(t, ps[1..], k, code, note)
    ensures ShownAt(t, ps, k, code, note)
  {
    hide InNotes, InCode;
    assert forall p :: p in ps <==> p == ps[0] || p in ps[1..];
    if Held(ps[1..], k) { assert Held(ps, k); }
  }

  lemma Lengths(word: char -> bool, t: string, pos: nat)
    requires pos <= |t|
    ensures |Lexer.LexFrom(word, t, pos, 0).0| == |Lexer.LexFrom(word, t, pos, 0).1| == |t| - pos
  {
    Lexer.LexBeside(word, t, pos, 0);
    hide Lexer.LexFrom;
  }

  lemma Front(w: string, x: string, y: string, k: nat)
    requires w == x + y && k < |w|
    ensures w[k] == if k < |x| then x[k] else y[k - |x|]
  {
  }

  lemma TextsAt(t: string, p: Piece, k: nat)
    requires p.from <= k < p.to <= |t|
    ensures CodeOf(t, p)[k - p.from] == InCode(p, t[k]) && NotesOf(t, p)[k - p.from] == InNotes(p, t[k], k)
    ensures |CodeOf(t, p)| == |NotesOf(t, p)| == p.to - p.from
  {
    hide CodeOf, NotesOf, InCode, InNotes;
  }

  lemma LexedFront(word: char -> bool, t: string, pos: nat, ps: seq<Piece>)
    requires Lexed(word, t, pos, ps) && ps != []
    ensures pos <= ps[0].from < ps[0].to <= |t| && Shows(word, t, ps[0]) && Lexed(word, t, ps[0].to, ps[1..])
  {
    TokenShows(word, t, ps[0]);
    TokenLong(word, t, ps[0]);
    ShowsFits(word, t, ps[0]);
    hide Token, Shows, Begins;
  }

  lemma ShowsFits(word: char -> bool, t: string, p: Piece)
    ensures Shows(word, t, p) ==> p.to <= |t|
  {
  }

  /** At every offset the two outputs show what the pieces say. */
  lemma {:induction false} LexAt(word: char -> bool, t: string, pos: nat, ps: seq<Piece>, k: nat)
    requires pos <= k < |t| && Lexed(word, t, pos, ps)
    ensures var (a, b) := Lexer.LexFrom(word, t, pos, 0);
      |a| == |b| == |t| - pos && ShownAt(t, ps, k, a[k - pos], b[k - pos])
    decreases |t| - pos
  {
    hide *;
    Lengths(word, t, pos);
    var a, b := Lexer.LexFrom(word, t, pos, 0).0, Lexer.LexFrom(word, t, pos, 0).1;
    if ps == [] || pos < ps[0].from {
      PlainShown(word, t, pos, ps);
      PlainFront(word, t, pos);
      Lengths(word, t, pos + 1);
      var x, y := Lexer.LexFrom(word, t, pos + 1, 0).0, Lexer.LexFrom(word, t, pos + 1, 0).1;
      Front(a, [t[pos]], x, k - pos);
      Front(b, [if t[pos] == '\n' then '\n' else ' '], y, k - pos);
      if k > pos { LexAt(word, t, pos + 1, ps, k); }
    } else {
      LexedFront(word, t, pos, ps);
      FirstOnly(word, t, pos, ps);
      var p := ps[0];
      ShowsIs(word, t, p);
      Lengths(word, t, p.to);
      TextsAt(t, p, if k < p.to then k else p.from);
      var x, y := Lexer.LexFrom(word, t, p.to, 0).0, Lexer.LexFrom(word, t, p.to, 0).1;
      Front(a, CodeOf(t, p), x, k - pos);
      Front(b, NotesOf(t, p), y, k - pos);
      if k < p.to {
        FirstShown(word, t, pos, ps, k);
      } else {
        LexAt(word, t, p.to, ps[1..], k);
        LaterShown(t, ps, k, a[k - pos], b[k - pos]);
      }
    }
  }

  lemma FirstOnly(word: char -> bool, t: string, pos: nat, ps: seq<Piece>)
    requires Lexed(word, t, pos, ps) && ps != []
    ensures pos <= ps[0].from
  {
  }

  /** For every source and its pieces: comments show in the comments, without the marks of block comments; strings and
      character literals nowhere; what is left shows in the code. Newlines show in both, but not inside a character literal. */
  lemma LexRead(word: char -> bool, t: string, ps: seq<Piece>)
    requires Lexed(word, t, 0, ps)
    ensures var (code, notes) := Lexer.LexFrom(word, t, 0, 0);
      |code| == |notes| == |t| && forall k :: 0 <= k < |t| ==> ShownAt(t, ps, k, code[k], notes[k])
  {
    hide *;
    Lengths(word, t, 0);
    var (code, notes) := Lexer.LexFrom(word, t, 0, 0);
    forall k | 0 <= k < |t| ensures ShownAt(t, ps, k, code[k], notes[k]) { LexAt(word, t, 0, ps, k); }
  }

  // ------------------------------------------------------------------ every source has its pieces

  /** From a place inside a comment on: its end and the rest of its marks. */
  lemma {:induction false} BlockFrom(t: string, i: nat, ms: seq<nat>) returns (e: nat, all: seq<nat>)
    requires Has(t, i, "/*") && StillOpen(t, i, ms) && ms[0] == i && Behind(i, ms) <= |t|
    ensures Block(t, i, e, all) && i < e <= |t|
    decreases |t| - Behind(i, ms)
  {
    var j := Behind(i, ms);
    if exists p: nat :: p >= j && Mark(t, p) {
      var m := LeastMark(t, j);
      MarkNext(t, i, ms, m);
      hide Marks, Surplus, Has;
      if Surplus(t, ms + [m]) > 0 {
        e, all := BlockFrom(t, i, ms + [m]);
      } else {
        e, all := m + 2, ms + [m];
        assert Surplus(t, ms[..|ms|]) > 0 && ms[..|ms|] == ms;
        Ascend(t, i, ms + [m], 0);
      }
    } else {
      e, all := |t|, ms;
    }
  }

  lemma {:induction false} LeastMark(t: string, j: nat) returns (m: nat)
    requires exists p: nat :: p >= j && Mark(t, p)
    ensures j <= m && m + 2 <= |t| && Mark(t, m) && forall p :: j <= p < m ==> !Mark(t, p)
    decreases |t| - j
  {
    var p: nat :| p >= j && Mark(t, p);
    assert p + 2 <= |t|;
    if Mark(t, j) {
      m := j;
    } else {
      assert p >= j + 1;
      m := LeastMark(t, j + 1);
    }
  }

  lemma LineSome(t: string, i: nat) returns (e: nat)
    requires Has(t, i, "//")
    ensures LineComment(t, i, e) && i < e <= |t|
  {
    e := RustMask.LineEnd(t, i + 2);
    LineEndIs(t, i + 2, e);
    hide Has, RustMask.LineEnd;
  }

  lemma StrSome(t: string, i: nat) returns (e: nat, closed: bool)
    requires i < |t|
    ensures i < e <= |t| && StringTo(t, i + 1, e, closed)
  {
    var end := RustMask.StrEnd(t, i + 1);
    closed := end.Some?;
    e := if closed then end.value else |t|;
    StringOne(t, i + 1, e, closed);
    hide RustMask.StrEnd, StringTo;
  }

  lemma RawSome(t: string, body: nat, h: nat) returns (e: nat, closed: bool)
    requires body <= |t|
    ensures body <= e <= |t| && RawTo(t, body, h, e, closed)
  {
    var close := "\"" + RustMask.Hashes(h);
    NoneBefore(t, close, body);
    var end := Find(t, close, body);
    closed := end.Some?;
    e := if closed then end.value + |close| else |t|;
    hide Find, Has, RustMask.Hashes;
  }

  lemma RawInside(word: char -> bool, t: string, i: nat, h: nat)
    requires RawStarts(word, t, i, h)
    ensures i + h + 2 <= |t|
  {
    HashesThenQuote(t, i, "r", h);
    hide Has, RustMask.Hashes, RustMask.HashRun;
  }

  /** What begins at `i` is a piece. */
  lemma PieceSome(word: char -> bool, t: string, i: nat) returns (p: Piece)
    requires Begins(word, t, i)
    ensures p.from == i && Token(word, t, p) && p.to <= |t|
  {
    hide Has, LineComment, Block, StringTo, RawTo, RawStarts, Char;
    if Has(t, i, "//") {
      var e := LineSome(t, i);
      p := LineNote(i, e);
    } else if Has(t, i, "/*") {
      FirstMark(t, i);
      var e, ms := BlockFrom(t, i, [i]);
      p := BlockNote(i, e, ms);
    } else if At(t, i) == Some('"') {
      var e, closed := StrSome(t, i);
      p := Str(i, e);
    } else if e: nat :| Char(t, i, e) {
      CharFits(t, i, e);
      p := Chr(i, e);
    } else {
      var h: nat :| RawStarts(word, t, i, h);
      RawInside(word, t, i, h);
      var e, closed := RawSome(t, i + h + 2, h);
      p := Str(i, e);
    }
  }

  lemma CharFits(t: string, i: nat, e: nat)
    ensures Char(t, i, e) ==> i < e <= |t|
  {
  }

  lemma FirstMark(t: string, i: nat)
    requires Has(t, i, "/*")
    ensures StillOpen(t, i, [i]) && Behind(i, [i]) <= |t|
  {
    var ms := [i];
    assert ms[..0] == [] && ms[..1] == ms && Marks(t, i, []);
  }

  /** Every source is a sequence of pieces. */
  lemma {:induction false} LexedSome(word: char -> bool, t: string, pos: nat) returns (ps: seq<Piece>)
    requires pos <= |t|
    ensures Lexed(word, t, pos, ps)
    decreases |t| - pos
  {
    if pos == |t| {
      ps := [];
      forall q: nat | pos <= q ensures !Begins(word, t, q) { BeginsInside(word, t, q); }
    } else if Begins(word, t, pos) {
      var p := PieceSome(word, t, pos);
      TokenLong(word, t, p);
      var rest := LexedSome(word, t, p.to);
      ps := [p] + rest;
      hide Token, Begins;
      assert ps[1..] == rest;
    } else {
      ps := LexedSome(word, t, pos + 1);
      hide Token, Begins;
    }
  }

  lemma BeginsInside(word: char -> bool, t: string, q: nat)
    ensures Begins(word, t, q) ==> q < |t|
  {
    if h: nat :| RawStarts(word, t, q, h) { HashesThenQuote(t, q, "r", h); }
  }
}
