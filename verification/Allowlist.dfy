/** `read_allowlist`, `write_allowlist` and `--prune` of ci/check-module-layers.py. */
module Allowlist {
  import opened Options
  import opened Text
  import opened L = Layers

  type Entries = map<Key, string>

  // ------------------------------------------------------------------ lines and fields

  /** Where `str.splitlines` ends a line. */
  predicate Breaks(c: char) {
    c in ['\n', '\r', '\U{B}', '\U{C}', '\U{1C}', '\U{1D}', '\U{1E}', '\U{85}', '\U{2028}', '\U{2029}']
  }

  function LineEnd(s: string): (n: nat)
    ensures n <= |s| && (n < |s| ==> Breaks(s[n])) && forall i :: 0 <= i < n ==> !Breaks(s[i])
  {
    if s == "" || Breaks(s[0]) then 0 else 1 + LineEnd(s[1..])
  }

  /** `s.splitlines()`. */
  function Lines(s: string): seq<string>
    decreases |s|
  {
    var n := LineEnd(s);
    if s == "" then []
    else if n == |s| then [s]
    else [s[..n]] + Lines(s[n + (if "\r\n" <= s[n..] then 2 else 1)..])
  }

  /** `s.split('\t')`. */
  function Fields(s: string): (r: seq<string>)
    ensures r != []
  {
    if s == "" then [""]
    else
      var rest := Fields(s[1..]);
      if s[0] == '\t' then [""] + rest else [[s[0]] + rest[0]] + rest[1..]
  }

  predicate Unbroken(s: string) {
    forall i :: 0 <= i < |s| ==> !Breaks(s[i])
  }

  lemma LinesStep(a: string, rest: string)
    requires Unbroken(a)
    ensures Lines(a + "\n" + rest) == [a] + Lines(rest)
  {
    var s := a + "\n" + rest;
    var n := LineEnd(s);
    assert s[|a|] == '\n' && Breaks(s[|a|]);
    assert forall i :: 0 <= i < |a| ==> s[i] == a[i];
    assert n == |a|;
    assert s[..n] == a && s[n + 1..] == rest && s[n..][0] == '\n';
  }

  lemma {:induction false} FieldsStep(a: string, rest: string)
    requires '\t' !in a
    ensures Fields(a + "\t" + rest) == [a] + Fields(rest) && Fields(a) == [a]
    decreases |a|
  {
    var s := a + "\t" + rest;
    if a == "" {
      assert s == "\t" + rest && s[1..] == rest;
    } else {
      assert s[1..] == a[1..] + "\t" + rest;
      FieldsStep(a[1..], rest);
      assert s[0] == a[0] && a[0] in a && a == [a[0]] + a[1..];
    }
  }

  function Row(key: Key, reason: string): string {
    key.0 + "\t" + key.1 + "\t" + reason
  }

  lemma FieldsOfRow(key: Key, reason: string)
    requires '\t' !in key.0 && '\t' !in key.1 && '\t' !in reason
    ensures Fields(Row(key, reason)) == [key.0, key.1, reason]
  {
    FieldsStep(key.0, key.1 + "\t" + reason);
    FieldsStep(key.1, reason);
    FieldsStep(reason, "");
    assert Row(key, reason) == key.0 + "\t" + (key.1 + "\t" + reason);
  }

  function Join(fields: seq<string>): string
    requires fields != []
  {
    if |fields| == 1 then fields[0] else fields[0] + "\t" + Join(fields[1..])
  }

  /** Splitting loses nothing, and no field holds a tab. */
  lemma {:induction false} FieldsJoin(s: string)
    ensures Join(Fields(s)) == s
    ensures forall k :: 0 <= k < |Fields(s)| ==> '\t' !in Fields(s)[k]
  {
    if s != "" {
      FieldsJoin(s[1..]);
      var rest := Fields(s[1..]);
      assert s == [s[0]] + s[1..];
      if s[0] == '\t' {
        assert ([""] + rest)[1..] == rest;
      } else {
        assert ([[s[0]] + rest[0]] + rest[1..])[1..] == rest[1..];
      }
    }
  }

  // ------------------------------------------------------------------ reading

  /** A blank line or a comment. */
  predicate Skipped(space: Space, line: string) {
    Strip(space, line) == "" || (var t := StripLeft(space, line); t != "" && t[0] == '#')
  }

  /** A line is passed over when it is all space, or its first other character is `#`. */
  lemma SkippedMeans(space: Space, line: string)
    requires !space('#')
    ensures Skipped(space, line) <==>
      (forall k :: 0 <= k < |line| ==> space(line[k]))
      || exists k: nat :: k < |line| && line[k] == '#' && forall j :: 0 <= j < k ==> space(line[j])
  {
    var left := StripLeftParts(space, line);
    var t := StripLeft(space, line);
    KeepsFirst(space, t);
    hide StripLeft, StripRight;
    assert forall j :: 0 <= j < |left| ==> line[j] == left[j];
    if t != "" {
      assert line[|left|] == t[0];
      if t[0] == '#' { assert forall j :: 0 <= j < |left| ==> space(line[j]); }
    }
  }

  lemma {:induction false} KeepsFirst(space: Space, t: string)
    ensures StripRight(space, t) == "" <==> AllSpace(space, t)
    decreases |t|
  {
    if t != "" {
      KeepsFirst(space, t[..|t| - 1]);
      assert t == t[..|t| - 1] + [t[|t| - 1]];
    }
  }

  /** What the lines so far gave: the entries, and the numbers of the bad lines. */
  datatype State = State(entries: Entries, bad: seq<nat>)

  function Take(space: Space, s: State, line: string, number: nat): State {
    var f := Fields(line);
    if Skipped(space, line) then s
    else if |f| != 3 || "" in f then s.(bad := s.bad + [number])
    else
      var key := (f[0], f[1]);
      State(s.entries[key := f[2]], if key in s.entries then s.bad + [number] else s.bad)
  }

  function TakeAll(space: Space, s: State, lines: seq<string>, number: nat): State
    decreases |lines|
  {
    if lines == [] then s else TakeAll(space, Take(space, s, lines[0], number), lines[1..], number + 1)
  }

  datatype List = List(declared: Option<int>, state: State)

  const COUNT: string := "# count:"

  /** None where `int` raises on the count. */
  function ReadText(space: Space, text: string): Option<List> {
    var lines := Lines(text);
    var none := State(map[], []);
    if lines != [] && COUNT <= lines[0] then
      match Int(space, lines[0][|COUNT|..])
      case None => None
      case Some(n) => Some(List(Some(n), TakeAll(space, none, lines[1..], 2)))
    else Some(List(None, TakeAll(space, none, lines, 1)))
  }

  /** The loop over the lines, from line `first` on. */
  method TakeLines(space: Space, lines: seq<string>, first: nat) returns (s: State)
    requires 1 <= first <= |lines| + 1
    ensures s == TakeAll(space, State(map[], []), lines[first - 1..], first)
  {
    hide Fields, Skipped, TakeAll;
    var entries, bad: seq<nat> := map[], [];
    var number := first;
    while number <= |lines|
      invariant first <= number <= |lines| + 1
      invariant TakeAll(space, State(map[], []), lines[first - 1..], first) == TakeAll(space, State(entries, bad), lines[number - 1..], number)
    {
      var line := lines[number - 1];
      TakeAt(space, State(entries, bad), lines, number);
      if !Skipped(space, line) {
        var fields := Fields(line);
        if |fields| != 3 || "" in fields {
          bad := bad + [number];
        } else {
          var key := (fields[0], fields[1]);
          if key in entries { bad := bad + [number]; }
          entries := entries[key := fields[2]];
        }
      }
      number := number + 1;
    }
    TakeNone(space, State(entries, bad), lines[number - 1..], number);
    s := State(entries, bad);
  }

  /** A missing file declares no entries. */
  method Read(space: Space, file: Option<string>) returns (r: Option<List>)
    ensures r == match file case None => Some(List(Some(0), State(map[], []))) case Some(text) => ReadText(space, text)
  {
    if file.None? {
      return Some(List(Some(0), State(map[], [])));
    }
    var lines := Lines(file.value);
    ReadTextCases(space, file.value);
    hide Lines, Fields, Skipped, TakeAll, ReadText, Int;
    var declared, number := None, 1;
    if lines != [] && COUNT <= lines[0] {
      var n := Int(space, lines[0][|COUNT|..]);
      if n.None? {
        return None;
      }
      declared := n;
      number := 2;
    }
    var state := TakeLines(space, lines, number);
    r := Some(List(declared, state));
  }

  lemma ReadTextCases(space: Space, text: string)
    ensures var lines, none := Lines(text), State(map[], []);
      lines[0..] == lines &&
      ReadText(space, text) ==
        if lines != [] && COUNT <= lines[0] then
          var n := Int(space, lines[0][|COUNT|..]);
          if n.None? then None else Some(List(n, TakeAll(space, none, lines[1..], 2)))
        else Some(List(None, TakeAll(space, none, lines, 1)))
  {
    hide Lines, TakeAll, Int;
  }

  lemma TakeAt(space: Space, s: State, lines: seq<string>, number: nat)
    requires 1 <= number <= |lines|
    ensures TakeAll(space, s, lines[number - 1..], number) == TakeAll(space, Take(space, s, lines[number - 1], number), lines[number..], number + 1)
  {
    hide Take;
    assert lines[number - 1..][0] == lines[number - 1] && lines[number - 1..][1..] == lines[number..];
  }

  lemma TakeNone(space: Space, s: State, lines: seq<string>, number: nat)
    requires lines == []
    ensures TakeAll(space, s, lines, number) == s
  {
  }

  /** Lines that are neither blank nor comments. */
  function Payload(space: Space, lines: seq<string>): nat {
    if lines == [] then 0 else (if Skipped(space, lines[0]) then 0 else 1) + Payload(space, lines[1..])
  }

  /** Every such line is an entry of its own or a bad line: the gate's count is their number. */
  lemma {:induction false} EveryLineCounts(space: Space, s: State, lines: seq<string>, number: nat)
    ensures var r := TakeAll(space, s, lines, number); |r.entries| + |r.bad| == |s.entries| + |s.bad| + Payload(space, lines)
    decreases |lines|
  {
    if lines != [] {
      hide Skipped, Fields;
      EveryLineCounts(space, Take(space, s, lines[0], number), lines[1..], number + 1);
    }
  }

  // ------------------------------------------------------------------ writing

  function RowsText(entries: Entries, order: seq<Key>): string
    requires forall k :: k in order ==> k in entries
  {
    if order == [] then "" else Row(order[0], entries[order[0]]) + "\n" + RowsText(entries, order[1..])
  }

  function NotesText(notes: seq<string>): string {
    if notes == [] then "" else notes[0] + "\n" + NotesText(notes[1..])
  }

  /** The header's first line, its further comment lines, and a row for every entry. */
  function ListText(entries: Entries, order: seq<Key>, notes: seq<string>): string
    requires forall k :: k in order ==> k in entries
  {
    COUNT + " " + Decimal(|entries|) + "\n" + (NotesText(notes) + RowsText(entries, order))
  }

  ghost predicate Enumerates(order: seq<Key>, entries: Entries) {
    && (forall k :: k in order <==> k in entries)
    && forall i, j :: 0 <= i < j < |order| ==> order[i] != order[j]
  }

  ghost predicate Written(entries: Entries, notes: seq<string>, text: string) {
    exists order :: Enumerates(order, entries) && text == ListText(entries, order, notes)
  }

  /** `write_allowlist`, whichever order the keys are sorted in. */
  method Write(entries: Entries, notes: seq<string>) returns (text: string)
    ensures Written(entries, notes, text)
  {
    var rest := entries.Keys;
    var order: seq<Key> := [];
    var rows := "";
    while rest != {}
      invariant rest <= entries.Keys
      invariant forall k :: k in order <==> k in entries && k !in rest
      invariant forall i, j :: 0 <= i < j < |order| ==> order[i] != order[j]
      invariant rows == RowsText(entries, order)
      decreases |rest|
    {
      var k :| k in rest;
      rest := rest - {k};
      RowsSnoc(entries, order, k);
      order := order + [k];
      rows := rows + Row(k, entries[k]) + "\n";
    }
    text := COUNT + " " + Decimal(|entries|) + "\n" + (NotesText(notes) + rows);
    assert Enumerates(order, entries);
  }

  lemma {:induction false} RowsSnoc(entries: Entries, order: seq<Key>, k: Key)
    requires (forall x :: x in order ==> x in entries) && k in entries
    ensures RowsText(entries, order + [k]) == RowsText(entries, order) + Row(k, entries[k]) + "\n"
    decreases |order|
  {
    if order == [] {
      assert order + [k] == [k] && [k][1..] == [];
    } else {
      RowsSnoc(entries, order[1..], k);
      assert (order + [k])[1..] == order[1..] + [k];
    }
  }

  // ------------------------------------------------------------------ reading back what was written

  /** A row that reads as the entry it was written for. */
  ghost predicate Writable(space: Space, key: Key, reason: string) {
    && key.0 != "" && key.1 != "" && reason != ""
    && '\t' !in key.0 && '\t' !in key.1 && '\t' !in reason
    && Unbroken(Row(key, reason)) && !Skipped(space, Row(key, reason))
  }

  ghost predicate AllWritable(space: Space, entries: Entries) {
    forall k :: k in entries ==> Writable(space, k, entries[k])
  }

  ghost predicate Notes(space: Space, notes: seq<string>) {
    forall i :: 0 <= i < |notes| ==> Unbroken(notes[i]) && Skipped(space, notes[i])
  }

  function Rows(entries: Entries, order: seq<Key>): seq<string>
    requires forall k :: k in order ==> k in entries
  {
    if order == [] then [] else [Row(order[0], entries[order[0]])] + Rows(entries, order[1..])
  }

  lemma {:induction false} RowsLines(space: Space, entries: Entries, order: seq<Key>)
    requires AllWritable(space, entries) && forall k :: k in order ==> k in entries
    ensures Lines(RowsText(entries, order)) == Rows(entries, order)
    decreases |order|
  {
    if order != [] {
      assert order[0] in order;
      RowsLines(space, entries, order[1..]);
      LinesStep(Row(order[0], entries[order[0]]), RowsText(entries, order[1..]));
    }
  }

  lemma FrontApart<T>(s: seq<T>, t: seq<T>)
    requires s != []
    ensures s + t == [s[0]] + (s[1..] + t)
  {
  }

  lemma NotesUnfold(space: Space, notes: seq<string>, rest: string)
    requires Notes(space, notes) && notes != []
    ensures NotesText(notes) + rest == notes[0] + "\n" + (NotesText(notes[1..]) + rest)
    ensures Unbroken(notes[0]) && Skipped(space, notes[0]) && Notes(space, notes[1..])
  {
  }

  lemma {:induction false} NotesLines(space: Space, notes: seq<string>, rest: string)
    requires Notes(space, notes)
    ensures Lines(NotesText(notes) + rest) == notes + Lines(rest)
    decreases |notes|
  {
    hide *;
    if notes == [] {
      NoNotes(rest);
      assert notes + Lines(rest) == Lines(rest);
    } else {
      NotesUnfold(space, notes, rest);
      NotesLines(space, notes[1..], rest);
      LinesStep(notes[0], NotesText(notes[1..]) + rest);
      FrontApart(notes, Lines(rest));
    }
  }

  lemma NoNotes(rest: string)
    ensures NotesText([]) + rest == rest
  {
  }

  lemma {:induction false} TakeNotes(space: Space, s: State, notes: seq<string>, lines: seq<string>, number: nat)
    requires Notes(space, notes)
    ensures TakeAll(space, s, notes + lines, number) == TakeAll(space, s, lines, number + |notes|)
    decreases |notes|
  {
    if notes == [] {
      assert notes + lines == lines;
    } else {
      assert (notes + lines)[1..] == notes[1..] + lines;
      TakeNotes(space, s, notes[1..], lines, number + 1);
    }
  }

  /** `m` is the part of the map for the first `i` keys. */
  ghost predicate Covers(m: Entries, entries: Entries, order: seq<Key>, i: nat)
    requires i <= |order|
  {
    forall k :: (k in m <==> k in order[..i]) && (k in m ==> k in entries && m[k] == entries[k])
  }

  lemma TakeRow(space: Space, m: Entries, k: Key, reason: string, number: nat)
    requires Writable(space, k, reason) && k !in m
    ensures Take(space, State(m, []), Row(k, reason), number) == State(m[k := reason], [])
  {
    FieldsOfRow(k, reason);
  }

  lemma CoversNext(m: Entries, entries: Entries, order: seq<Key>, i: nat)
    requires Enumerates(order, entries) && i < |order| && Covers(m, entries, order, i)
    ensures order[i] in entries && order[i] !in m && Covers(m[order[i] := entries[order[i]]], entries, order, i + 1)
  {
    assert order[i] in order;
    assert order[..i + 1] == order[..i] + [order[i]];
  }

  lemma RowsUnfold(entries: Entries, order: seq<Key>, i: nat)
    requires (forall k :: k in order ==> k in entries) && i < |order|
    ensures order[i] in entries && Rows(entries, order[i..]) == [Row(order[i], entries[order[i]])] + Rows(entries, order[i + 1..])
  {
    assert order[i] in order;
    assert order[i..][0] == order[i] && order[i..][1..] == order[i + 1..];
  }

  lemma TakeUnfold(space: Space, s: State, line: string, lines: seq<string>, number: nat)
    ensures TakeAll(space, s, [line] + lines, number) == TakeAll(space, Take(space, s, line, number), lines, number + 1)
  {
    hide Take;
    assert ([line] + lines)[1..] == lines;
  }

  /** Reading the rows of the keys from `i` on completes the map. */
  lemma {:induction false} TakeRows(space: Space, entries: Entries, order: seq<Key>, i: nat, m: Entries, number: nat)
    requires AllWritable(space, entries) && Enumerates(order, entries) && i <= |order| && Covers(m, entries, order, i)
    ensures TakeAll(space, State(m, []), Rows(entries, order[i..]), number) == State(entries, [])
    decreases |order| - i
  {
    if i == |order| {
      assert order[..i] == order && m == entries;
    } else {
      hide Writable, Row, TakeAll, Take, Rows, Covers;
      CoversNext(m, entries, order, i);
      RowsUnfold(entries, order, i);
      var k := order[i];
      TakeRow(space, m, k, entries[k], number);
      TakeUnfold(space, State(m, []), Row(k, entries[k]), Rows(entries, order[i + 1..]), number);
      TakeRows(space, entries, order, i + 1, m[k := entries[k]], number + 1);
    }
  }

  ghost predicate ReadsBack(space: Space, entries: Entries, text: string) {
    ReadText(space, text) == Some(List(Some(|entries|), State(entries, [])))
  }

  lemma WrittenLines(space: Space, entries: Entries, order: seq<Key>, notes: seq<string>)
    requires Notes(space, notes) && AllWritable(space, entries) && Enumerates(order, entries)
    ensures Lines(ListText(entries, order, notes)) == [COUNT + " " + Decimal(|entries|)] + (notes + Rows(entries, order))
  {
    var first := COUNT + " " + Decimal(|entries|);
    forall i | 0 <= i < |first| ensures !Breaks(first[i]) {
      assert forall j :: 0 <= j < |COUNT| ==> !Breaks(COUNT[j]);
    }
    LinesStep(first, NotesText(notes) + RowsText(entries, order));
    NotesLines(space, notes, RowsText(entries, order));
    RowsLines(space, entries, order);
  }

  lemma ReadCounted(space: Space, n: nat, lines: seq<string>, text: string)
    requires DigitsShow(space) && Lines(text) == [COUNT + " " + Decimal(n)] + lines
    ensures ReadText(space, text) == Some(List(Some(n), TakeAll(space, State(map[], []), lines, 2)))
  {
    hide Lines, TakeAll, Int;
    var first := COUNT + " " + Decimal(n);
    assert first[|COUNT|..] == " " + Decimal(n) + "" && COUNT <= first;
    IntDecimal(space, " ", n, "");
    assert ([first] + lines)[1..] == lines;
  }

  lemma CoversNone(entries: Entries, order: seq<Key>)
    ensures Covers(map[], entries, order, 0) && order[0..] == order
  {
  }

  lemma ReadsBackAs(space: Space, entries: Entries, text: string)
    requires ReadText(space, text) == Some(List(Some(|entries|), State(entries, [])))
    ensures ReadsBack(space, entries, text)
  {
    hide ReadText;
  }

  lemma Enumerated(order: seq<Key>, entries: Entries)
    requires Enumerates(order, entries)
    ensures forall k :: k in order ==> k in entries
  {
  }

  lemma WrittenReadsBack(space: Space, entries: Entries, order: seq<Key>, notes: seq<string>)
    requires DigitsShow(space) && Notes(space, notes) && AllWritable(space, entries) && Enumerates(order, entries)
    ensures ReadsBack(space, entries, ListText(entries, order, notes))
  {
    hide *;
    Enumerated(order, entries);
    CoversNone(entries, order);
    var text, rows := ListText(entries, order, notes), Rows(entries, order);
    WrittenLines(space, entries, order, notes);
    ReadCounted(space, |entries|, notes + rows, text);
    TakeNotes(space, State(map[], []), notes, rows, 2);
    TakeRows(space, entries, order, 0, map[], 2 + |notes|);
    ReadsBackAs(space, entries, text);
  }

  /** What `Write` promises of its text. */
  lemma WriteReadsBack(space: Space, entries: Entries, notes: seq<string>, text: string)
    requires DigitsShow(space) && Notes(space, notes) && AllWritable(space, entries) && Written(entries, notes, text)
    ensures ReadsBack(space, entries, text)
  {
    var order :| Enumerates(order, entries) && text == ListText(entries, order, notes);
    WrittenReadsBack(space, entries, order, notes);
  }

  // ------------------------------------------------------------------ only writable entries are ever read

  lemma {:induction false} LinesUnbroken(s: string)
    ensures forall i :: 0 <= i < |Lines(s)| ==> Unbroken(Lines(s)[i])
    decreases |s|
  {
    var n := LineEnd(s);
    if s != "" && n < |s| { LinesUnbroken(s[n + (if "\r\n" <= s[n..] then 2 else 1)..]); }
  }

  lemma JoinThree(f: seq<string>)
    requires |f| == 3
    ensures Join(f) == Row((f[0], f[1]), f[2])
  {
    assert f[1..][1..] == [f[2]];
    assert Join(f[1..]) == f[1] + "\t" + f[2];
    assert f[0] + "\t" + (f[1] + "\t" + f[2]) == Row((f[0], f[1]), f[2]);
  }

  lemma TakeWritable(space: Space, s: State, line: string, number: nat)
    requires AllWritable(space, s.entries) && Unbroken(line)
    ensures AllWritable(space, Take(space, s, line, number).entries)
  {
    var f := Fields(line);
    FieldsJoin(line);
    if |f| == 3 && "" !in f {
      assert f[0] in f && f[1] in f && f[2] in f;
      JoinThree(f);
    }
  }

  lemma {:induction false} TakeAllWritable(space: Space, s: State, lines: seq<string>, number: nat)
    requires AllWritable(space, s.entries) && forall i :: 0 <= i < |lines| ==> Unbroken(lines[i])
    ensures AllWritable(space, TakeAll(space, s, lines, number).entries)
    decreases |lines|
  {
    if lines != [] {
      TakeWritable(space, s, lines[0], number);
      TakeAllWritable(space, Take(space, s, lines[0], number), lines[1..], number + 1);
    }
  }

  lemma ReadWritable(space: Space, text: string)
    requires ReadText(space, text).Some?
    ensures AllWritable(space, ReadText(space, text).value.state.entries)
  {
    LinesUnbroken(text);
    var lines := Lines(text);
    if lines != [] && COUNT <= lines[0] {
      TakeAllWritable(space, State(map[], []), lines[1..], 2);
    } else {
      TakeAllWritable(space, State(map[], []), lines, 1);
    }
  }

  /** Writing and reading is the identity, with the count right, exactly for the maps that reading can give. */
  lemma RoundTrip(space: Space, entries: Entries, order: seq<Key>, notes: seq<string>)
    requires DigitsShow(space) && Notes(space, notes) && Enumerates(order, entries)
    ensures ReadsBack(space, entries, ListText(entries, order, notes)) <==> AllWritable(space, entries)
  {
    if AllWritable(space, entries) { WrittenReadsBack(space, entries, order, notes); }
    if ReadsBack(space, entries, ListText(entries, order, notes)) { ReadWritable(space, ListText(entries, order, notes)); }
  }

  // ------------------------------------------------------------------ pruning

  /** The entries that some reference still needs. */
  function Pruned(allow: Entries, named: set<Key>): Entries {
    map k | k in allow && k in named :: allow[k]
  }

  /** `--prune`: read the list, drop the stale entries, write it again. */
  method Prune(space: Space, file: Option<string>, named: set<Key>, notes: seq<string>) returns (text: Option<string>)
    requires DigitsShow(space) && Notes(space, notes)
    ensures text.None? <==> file.Some? && ReadText(space, file.value).None?
    ensures text.Some? ==> ReadsBack(space, Pruned(if file.None? then map[] else ReadText(space, file.value).value.state.entries, named), text.value)
  {
    hide *;
    var list := Read(space, file);
    if list.None? {
      return None;
    }
    var kept := Pruned(list.value.state.entries, named);
    if file.Some? { ReadWritable(space, file.value); }
    PrunedWritable(space, list.value.state.entries, named, file.None?);
    var written := Write(kept, notes);
    WriteReadsBack(space, kept, notes, written);
    text := Some(written);
  }

  lemma PrunedWritable(space: Space, allow: Entries, named: set<Key>, missing: bool)
    requires if missing then allow == map[] else AllWritable(space, allow)
    ensures AllWritable(space, Pruned(allow, named))
  {
  }

  /**
   * After pruning, the list holds up the gate exactly when every key in use had an entry: no entry is stale,
   * the count is right, and no reference that was allowed fails.
   */
  lemma PrunedListHolds(t: Table, refs: seq<Ref>, allow: Entries, named: set<Key>, declared: Option<int>)
    requires t.Valid() && forall k :: k in named <==> InUse(t, refs, k)
    requires declared == Some(|Pruned(allow, named)|)
    ensures ListHolds(t, refs, declared, Pruned(allow, named).Keys) <==> named <= allow.Keys
  {
    hide InUse;
    var kept := Pruned(allow, named);
    assert kept.Keys == named * allow.Keys;
    assert |kept| == |kept.Keys|;
  }
}
