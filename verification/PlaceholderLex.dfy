/** `lex` and `line_of` of ci/check-placeholders.py: the code and the comments of a Rust source, side by side. */
module PlaceholderLex {
  import opened Options
  import opened Text
  import opened RustMask

  // ------------------------------------------------------------------ one token

  /** Which of the two outputs shows a piece; the other gets spaces and the newlines. `Gone` keeps not even those. */
  datatype Kind = Code | Note | Blanked | Gone

  datatype Step = Step(len: nat, kind: Kind, block: nat)

  predicate Hex(c: char) { '0' <= c <= '9' || 'a' <= c <= 'f' || 'A' <= c <= 'F' }

  function HexRun(t: string, i: nat): (k: nat)
    ensures k == 0 || i + k <= |t|
    decreases |t| - i
  {
    if i < |t| && (Hex(t[i]) || t[i] == '_') then 1 + HexRun(t, i + 1) else 0
  }

  predicate HexAt(t: string, i: nat) { i < |t| && Hex(t[i]) }

  /** The length of the character literal at `i`, if the quote there starts one. */
  function CharLit(t: string, i: nat): (r: Option<nat>)
    ensures r.Some? ==> 3 <= r.value && i + r.value <= |t|
  {
    var k := HexRun(t, i + 4);
    if At(t, i + 1) == Some('\\') then
      if At(t, i + 2) == Some('x') && HexAt(t, i + 3) && HexAt(t, i + 4) && At(t, i + 5) == Some('\'') then Some(6)
      else if At(t, i + 2) == Some('u') && At(t, i + 3) == Some('{') && 1 <= k <= 8 && At(t, i + 4 + k) == Some('}')
           && At(t, i + 5 + k) == Some('\'') then Some(6 + k)
      else if i + 2 < |t| && t[i + 2] != '\n' && At(t, i + 3) == Some('\'') then Some(4)
      else None
    else if i + 1 < |t| && t[i + 1] != '\'' && At(t, i + 2) == Some('\'') then Some(3)
    else None
  }

  function HashRun(t: string, i: nat): (k: nat)
    ensures k == 0 || i + k <= |t|
    decreases |t| - i
  {
    if i < |t| && t[i] == '#' then 1 + HashRun(t, i + 1) else 0
  }

  /** The number of hashes of the raw string at `i`: at most ten, and no word character in front of the `r`. */
  function RawHashes(word: char -> bool, t: string, i: nat): Option<nat>
    requires i < |t|
  {
    var h := HashRun(t, i + 1);
    if t[i] == 'r' && h <= 10 && At(t, i + 1 + h) == Some('"') && !(i > 0 && word(t[i - 1])) then Some(h) else None
  }

  /** Just past the closing quote of a string whose content starts at `j`. */
  function StringEnd(t: string, j: nat): (r: nat)
    ensures r <= |t| && (j < |t| ==> j < r)
    decreases |t| - j
  {
    if j >= |t| then |t|
    else if t[j] == '"' then j + 1
    else StringEnd(t, j + if t[j] == '\\' then 2 else 1)
  }

  function Until(t: string, pat: string, i: nat): (r: nat)
    requires pat != [] && i <= |t|
    ensures i <= r <= |t|
  {
    match Find(t, pat, i) case None => |t| case Some(j) => j
  }

  /** Just past the end of a raw string with `h` hashes, or the end of the text. */
  function RawEnd(t: string, i: nat, h: nat): (r: nat)
    requires i + 2 + h <= |t|
    ensures i < r <= |t|
  {
    match Find(t, "\"" + Hashes(h), i + 2 + h) case None => |t| case Some(j) => j + 1 + h
  }

  /** The piece that starts at `i` inside `block` comments. */
  function Next(word: char -> bool, t: string, i: nat, block: nat): (s: Step)
    requires i < |t|
    ensures 1 <= s.len && i + s.len <= |t|
  {
    if block > 0 then
      if Has(t, i, "/*") then Step(2, Gone, block + 1)
      else if Has(t, i, "*/") then Step(2, Gone, block - 1)
      else Step(1, Note, block)
    else if Has(t, i, "//") then Step(Until(t, "\n", i + 2) - i, Note, 0)
    else if Has(t, i, "/*") then Step(2, Gone, 1)
    else if RawHashes(word, t, i).Some? then Step(RawEnd(t, i, RawHashes(word, t, i).value) - i, Blanked, 0)
    else if t[i] == '"' then Step(StringEnd(t, i + 1) - i, Blanked, 0)
    else if t[i] == '\'' && CharLit(t, i).Some? then Step(CharLit(t, i).value, Gone, 0)
    else Step(1, Code, 0)
  }

  // ------------------------------------------------------------------ the two outputs

  function Spaces(n: nat): (s: string)
    ensures |s| == n && forall i :: 0 <= i < n ==> s[i] == ' '
  {
    seq(n, _ => ' ')
  }

  function ShowCode(kind: Kind, piece: string): string {
    match kind
    case Code => piece
    case Note => Blank(piece)
    case Blanked => Blank(piece)
    case Gone => Spaces(|piece|)
  }

  function ShowNote(kind: Kind, piece: string): string {
    match kind
    case Code => Blank(piece)
    case Note => piece
    case Blanked => Blank(piece)
    case Gone => Spaces(|piece|)
  }

  function LexFrom(word: char -> bool, t: string, i: nat, block: nat): (string, string)
    requires i <= |t|
    decreases |t| - i
  {
    if i == |t| then ("", "")
    else
      var s := Next(word, t, i, block);
      var piece := t[i..i + s.len];
      var rest := LexFrom(word, t, i + s.len, s.block);
      (ShowCode(s.kind, piece) + rest.0, ShowNote(s.kind, piece) + rest.1)
  }

  /** A quote, a newline and a quote, where a character literal can start: its newline is blanked. */
  ghost predicate LosesNewline(word: char -> bool, t: string, i: nat, block: nat)
    requires i <= |t|
    decreases |t| - i
  {
    i < |t| &&
    var s := Next(word, t, i, block);
    (s.kind == Gone && '\n' in t[i..i + s.len]) || LosesNewline(word, t, i + s.len, s.block)
  }

  /** Lengths agree; a character shows in the code or in the comments, never in both; newlines are at the same offsets. */
  ghost predicate Beside(code: string, com: string, t: string) {
    && |code| == |com| == |t|
    && forall k :: 0 <= k < |t| ==>
      && (code[k] == t[k] || code[k] == ' ') && (com[k] == t[k] || com[k] == ' ')
      && (code[k] == '\n' <==> com[k] == '\n')
      && (code[k] == ' ' || com[k] == ' ' || code[k] == '\n')
  }

  ghost predicate KeepsNewlines(code: string, t: string) {
    |code| == |t| && forall k :: 0 <= k < |t| && t[k] == '\n' ==> code[k] == '\n'
  }

  lemma PieceBeside(kind: Kind, piece: string)
    ensures Beside(ShowCode(kind, piece), ShowNote(kind, piece), piece)
    ensures KeepsNewlines(ShowCode(kind, piece), piece) <==> !(kind == Gone && '\n' in piece)
  {
  }

  lemma BesideJoin(a: string, b: string, s: string, a': string, b': string, s': string)
    requires Beside(a, b, s) && Beside(a', b', s')
    ensures Beside(a + a', b + b', s + s')
    ensures KeepsNewlines(a + a', s + s') <==> KeepsNewlines(a, s) && KeepsNewlines(a', s')
  {
    if KeepsNewlines(a + a', s + s') {
      forall k | 0 <= k < |s| && s[k] == '\n' ensures a[k] == '\n' { assert (s + s')[k] == s[k]; }
      forall k | 0 <= k < |s'| && s'[k] == '\n' ensures a'[k] == '\n' { assert (s + s')[|s| + k] == s'[k]; }
    }
  }

  lemma LexUnfold(word: char -> bool, t: string, i: nat, block: nat)
    requires i < |t|
    ensures var s := Next(word, t, i, block);
      var piece, rest := t[i..i + s.len], LexFrom(word, t, i + s.len, s.block);
      && LexFrom(word, t, i, block) == (ShowCode(s.kind, piece) + rest.0, ShowNote(s.kind, piece) + rest.1)
      && t[i..] == piece + t[i + s.len..]
      && (LosesNewline(word, t, i, block) <==> (s.kind == Gone && '\n' in piece) || LosesNewline(word, t, i + s.len, s.block))
  {
    hide Next, ShowCode, ShowNote;
  }

  lemma LexEnds(word: char -> bool, t: string, block: nat)
    ensures LexFrom(word, t, |t|, block) == ("", "") && !LosesNewline(word, t, |t|, block)
    ensures Beside("", "", t[|t|..]) && KeepsNewlines("", t[|t|..])
  {
  }

  /** For every text: both outputs lie beside it, and no newline is lost exactly when no literal is a bare newline. */
  lemma {:induction false} LexBeside(word: char -> bool, t: string, i: nat, block: nat)
    requires i <= |t|
    ensures Beside(LexFrom(word, t, i, block).0, LexFrom(word, t, i, block).1, t[i..])
    ensures KeepsNewlines(LexFrom(word, t, i, block).0, t[i..]) <==> !LosesNewline(word, t, i, block)
    decreases |t| - i
  {
    hide *;
    if i == |t| {
      LexEnds(word, t, block);
    } else {
      LexUnfold(word, t, i, block);
      var s := Next(word, t, i, block);
      var piece := t[i..i + s.len];
      LexBeside(word, t, i + s.len, s.block);
      PieceBeside(s.kind, piece);
      var rest := LexFrom(word, t, i + s.len, s.block);
      BesideJoin(ShowCode(s.kind, piece), ShowNote(s.kind, piece), piece, rest.0, rest.1, t[i + s.len..]);
    }
  }

  lemma LostNewline(word: char -> bool)
    ensures LexFrom(word, "'\n'", 0, 0).0 == "   "
  {
    var t := "'\n'";
    assert !Has(t, 0, "//") && !Has(t, 0, "/*") by { assert t[0..2][0] == '\''; }
    assert CharLit(t, 0) == Some(3) && t[0] == '\'';
    assert Next(word, t, 0, 0) == Step(3, Gone, 0);
    assert LexFrom(word, t, 3, 0) == ("", "");
    assert Spaces(3) + "" == "   ";
  }

  /** `lex`, before its two texts are split into lines. */
  method Lex(word: char -> bool, t: string) returns (code: string, com: string)
    ensures (code, com) == LexFrom(word, t, 0, 0)
    ensures Beside(code, com, t)
    ensures KeepsNewlines(code, t) <==> !LosesNewline(word, t, 0, 0)
  {
    hide *;
    LexBeside(word, t, 0, 0);
    assert t[0..] == t;
    code, com := "", "";
    var i, block := 0, 0;
    ghost var all := LexFrom(word, t, 0, 0);
    assert "" + all.0 == all.0 && "" + all.1 == all.1;
    while i < |t|
      invariant 0 <= i <= |t|
      invariant LexFrom(word, t, 0, 0) == (code + LexFrom(word, t, i, block).0, com + LexFrom(word, t, i, block).1)
    {
      LexUnfold(word, t, i, block);
      var s := Next(word, t, i, block);
      var piece := t[i..i + s.len];
      ghost var rest := LexFrom(word, t, i + s.len, s.block);
      Regroup(code, ShowCode(s.kind, piece), rest.0);
      Regroup(com, ShowNote(s.kind, piece), rest.1);
      code, com := code + ShowCode(s.kind, piece), com + ShowNote(s.kind, piece);
      i, block := i + s.len, s.block;
    }
    LexEnds(word, t, block);
    assert code + "" == code && com + "" == com;
  }

  lemma Regroup(a: string, b: string, c: string)
    ensures a + (b + c) == (a + b) + c
  {
  }

  // ------------------------------------------------------------------ lines

  /** `s.split('\n')`. */
  function SplitLines(s: string): (r: seq<string>)
    ensures r != []
    decreases |s|
  {
    match Find(s, "\n", 0) case None => [s] case Some(j) => [s[..j]] + SplitLines(s[j + 1..])
  }

  /** `'\n'.join(lines)`, with one more newline behind. */
  function JoinLines(lines: seq<string>): string {
    if lines == [] then "" else lines[0] + "\n" + JoinLines(lines[1..])
  }

  lemma {:induction false} FindNewline(a: string, b: string, i: nat)
    requires |a| == |b| && forall k :: 0 <= k < |a| ==> (a[k] == '\n' <==> b[k] == '\n')
    ensures Find(a, "\n", i) == Find(b, "\n", i)
    decreases |a| - i
  {
    if i < |a| {
      assert Has(a, i, "\n") <==> a[i] == '\n' by { assert a[i..i + 1] == [a[i]]; }
      assert Has(b, i, "\n") <==> b[i] == '\n' by { assert b[i..i + 1] == [b[i]]; }
      FindNewline(a, b, i + 1);
    }
  }

  /** The code and the comments have the same lines: `comments[n - 1]` exists and lies beside `code[n - 1]`. */
  lemma {:induction false} SameLines(code: string, com: string)
    requires |code| == |com| && forall k :: 0 <= k < |code| ==> (code[k] == '\n' <==> com[k] == '\n')
    ensures |SplitLines(code)| == |SplitLines(com)|
    ensures forall n :: 0 <= n < |SplitLines(code)| ==> |SplitLines(code)[n]| == |SplitLines(com)[n]|
    decreases |code|
  {
    FindNewline(code, com, 0);
    match Find(code, "\n", 0)
    case None =>
    case Some(j) =>
      SameLines(code[j + 1..], com[j + 1..]);
  }

  /** `starts[k]`: where line `k` starts in the joined text. */
  function Starts(lines: seq<string>, k: nat): nat
    requires k <= |lines|
  {
    if k == 0 then 0 else Starts(lines, k - 1) + |lines[k - 1]| + 1
  }

  lemma {:induction false} StartsMonotone(lines: seq<string>, i: nat, j: nat)
    requires i <= j <= |lines|
    ensures Starts(lines, i) + (j - i) <= Starts(lines, j)
    decreases j
  {
    if i < j { StartsMonotone(lines, i, j - 1); }
  }

  /** The line whose text, with its newline, holds the offset. */
  ghost predicate HoldsOffset(lines: seq<string>, pos: nat, number: nat) {
    1 <= number <= |lines| && Starts(lines, number - 1) <= pos < Starts(lines, number)
  }

  lemma OneLineHolds(lines: seq<string>, pos: nat, m: nat, n: nat)
    requires HoldsOffset(lines, pos, m) && HoldsOffset(lines, pos, n)
    ensures m == n
  {
    if m < n { StartsMonotone(lines, m, n - 1); }
    if n < m { StartsMonotone(lines, n, m - 1); }
  }

  method LineStarts(lines: seq<string>) returns (starts: seq<nat>)
    ensures |starts| == |lines| + 1 && starts[0] == 0 == Starts(lines, 0)
    ensures forall j :: 0 <= j <= |lines| ==> starts[j] == Starts(lines, j)
  {
    starts := [0];
    for k := 0 to |lines|
      invariant |starts| == k + 1 && forall j :: 0 <= j <= k ==> starts[j] == Starts(lines, j)
    {
      starts := starts + [starts[|starts| - 1] + |lines[k]| + 1];
    }
  }

  /** `line_of`: the line that holds `pos`, and one past the last line for an offset behind the text. */
  method LineOf(lines: seq<string>, pos: nat) returns (number: nat)
    ensures pos < Starts(lines, |lines|) ==> forall n :: HoldsOffset(lines, pos, n) <==> n == number
    ensures pos >= Starts(lines, |lines|) ==> number == |lines| + 1
  {
    hide Starts;
    var starts := LineStarts(lines);
    var lo, hi := 0, |lines|;
    while lo < hi
      invariant 0 <= lo <= hi <= |lines|
      invariant starts[lo] <= pos
      invariant hi < |lines| ==> pos < starts[hi + 1]
    {
      var mid := (lo + hi) / 2;
      if starts[mid + 1] <= pos {
        lo := mid + 1;
      } else {
        hi := mid;
      }
    }
    if lo < |lines| { StartsMonotone(lines, lo + 1, |lines|); }
    number := lo + 1;
    if pos < starts[|lines|] {
      forall n | HoldsOffset(lines, pos, n) ensures n == number { OneLineHolds(lines, pos, n, number); }
    }
  }

  /** The character at an offset is the character of the line that holds it. */
  lemma {:induction false} HeldCharacter(lines: seq<string>, pos: nat, number: nat)
    requires HoldsOffset(lines, pos, number)
    ensures var line, k := lines[number - 1] + "\n", pos - Starts(lines, number - 1);
      k < |line| && pos < |JoinLines(lines)| && JoinLines(lines)[pos] == line[k]
    decreases number
  {
    var rest := lines[1..];
    if number == 1 {
      assert JoinLines(lines) == (lines[0] + "\n") + JoinLines(rest);
    } else {
      StartsShift(lines, number - 1);
      StartsShift(lines, number);
      StartsMonotone(lines, 1, number - 1);
      var first := |lines[0]| + 1;
      HeldCharacter(rest, pos - first, number - 1);
      assert JoinLines(lines) == (lines[0] + "\n") + JoinLines(rest);
      assert lines[number - 1] == rest[number - 2];
    }
  }

  lemma {:induction false} StartsShift(lines: seq<string>, k: nat)
    requires 1 <= k <= |lines|
    ensures Starts(lines, k) == |lines[0]| + 1 + Starts(lines[1..], k - 1)
    decreases k
  {
    if k > 1 { StartsShift(lines, k - 1); }
  }
}
